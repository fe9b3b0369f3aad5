/**
 Group commit (DBImpl::Write, DBImpl::MakeRoomForWrite, DBImpl::BuildBatchGroup) as a protocol: every action taken
 under the mutex is one step, and the log append and memtable inserts, done without it, are steps of their own.
 */
module GroupCommit {
  import opened Keys
  import opened Version
  import opened CrashSafety

  /** One call of Write: no batch for a compaction request. size is the batch's byte size. */
  datatype Writer = Writer(id: nat, batch: Option<seq<Op>>, sync: bool, size: nat)

  function OpsOf(w: Writer): seq<Op> {
    if w.batch.Some? then w.batch.value else []
  }

  /** The operations of a run of writers, in queue order. */
  function AllOps(ws: seq<Writer>): seq<Op> {
    if ws == [] then [] else AllOps(ws[..|ws| - 1]) + OpsOf(ws[|ws| - 1])
  }

  lemma {:induction false} AllOpsAppend(a: seq<Writer>, b: seq<Writer>)
    ensures AllOps(a + b) == AllOps(a) + AllOps(b)
  {
    if b == [] {
      assert a + b == a;
    } else {
      assert (a + b)[..|a + b| - 1] == a + b[..|b| - 1];
      AllOpsAppend(a, b[..|b| - 1]);
    }
  }

  // ---------------------------------------------------------------------------------------------
  // Which writers ride together
  // ---------------------------------------------------------------------------------------------

  function SizeOf(w: Writer): nat {
    if w.batch.Some? then w.size else 0
  }

  function TotalSize(ws: seq<Writer>): nat {
    if ws == [] then 0 else TotalSize(ws[..|ws| - 1]) + SizeOf(ws[|ws| - 1])
  }

  const MEGABYTE := 0x100000
  const SMALL := 0x20000

  /** A small first batch may only be delayed by a little more than its own size. */
  function MaxSize(first: Writer): nat {
    if first.size <= SMALL then first.size + SMALL else MEGABYTE
  }

  /** Writer i may join the group of the writers before it. */
  predicate Joins(queue: seq<Writer>, i: nat)
    requires 0 < i < |queue|
  {
    && !(queue[i].sync && !queue[0].sync)
    && (queue[i].batch.Some? ==> TotalSize(queue[..i + 1]) <= MaxSize(queue[0]))
  }

  /** The first n writers are the group: each may join, and the next one may not. */
  ghost predicate IsGroup(queue: seq<Writer>, n: nat) {
    && 1 <= n <= |queue| && queue[0].batch.Some?
    && (forall i :: 1 <= i < n ==> Joins(queue, i))
    && (n < |queue| ==> !Joins(queue, n))
  }

  /**
   How much rides together: with a first batch of at most 128 KB no more than 128 KB beside it, else no more than
   1 MB in all, unless no other batch rides; and what is left behind would have been too much, or wants a sync.
   */
  lemma {:induction false} GroupSize(queue: seq<Writer>, n: nat)
    requires IsGroup(queue, n)
    ensures TotalSize(queue[..n]) == queue[0].size
            || TotalSize(queue[..n]) <= if queue[0].size <= 131072 then queue[0].size + 131072 else 1048576
    ensures n < |queue| && !(queue[n].sync && !queue[0].sync) ==>
              && queue[n].batch.Some?
              && TotalSize(queue[..n]) + queue[n].size > if queue[0].size <= 131072 then queue[0].size + 131072 else 1048576
    decreases n
  {
    hide TotalSize;
    if n < |queue| {
      OneMoreWriter(queue, n);
    }
    AloneInGroup(queue[0], queue);
    RidersFit(queue, n);
  }

  lemma {:induction false} RidersFit(queue: seq<Writer>, n: nat)
    requires 1 <= n <= |queue| && queue[0].batch.Some? && forall i :: 1 <= i < n ==> Joins(queue, i)
    ensures TotalSize(queue[..n]) == queue[0].size || TotalSize(queue[..n]) <= MaxSize(queue[0])
  {
    hide TotalSize, MaxSize;
    AloneInGroup(queue[0], queue);
    if n > 1 {
      OneMoreWriter(queue, n - 1);
      RidersFit(queue, n - 1);
      assert Joins(queue, n - 1);
    }
  }

  /** tmp_batch_ after building a group of these writers: used from the second batch on. */
  function TmpAfter(ws: seq<Writer>): seq<Op> {
    if exists i :: 1 <= i < |ws| && ws[i].batch.Some? then AllOps(ws) else []
  }

  lemma {:induction false} OneMoreWriter(queue: seq<Writer>, n: nat)
    requires n < |queue|
    ensures AllOps(queue[..n + 1]) == AllOps(queue[..n]) + OpsOf(queue[n])
    ensures TotalSize(queue[..n + 1]) == TotalSize(queue[..n]) + SizeOf(queue[n])
  {
    assert queue[..n + 1][..n] == queue[..n];
  }

  lemma {:induction false} AloneInGroup(first: Writer, queue: seq<Writer>)
    requires queue != [] && queue[0] == first && first.batch.Some?
    ensures AllOps(queue[..1]) == first.batch.value && TotalSize(queue[..1]) == first.size
  {
    OneMoreWriter(queue, 0);
  }

  /** result is the first writer's own batch while it is alone, tmp_batch_ after that. */
  method BuildBatchGroup(queue: seq<Writer>, tmpBatch: seq<Op>) returns (n: nat, result: seq<Op>, tmpBatch': seq<Op>)
    requires queue != [] && queue[0].batch.Some?
    requires tmpBatch == []
    ensures IsGroup(queue, n)
    ensures result == AllOps(queue[..n])
    ensures tmpBatch' == TmpAfter(queue[..n])
  {
    hide AllOps, TotalSize;
    var first := queue[0];
    AloneInGroup(first, queue);
    result := first.batch.value;
    var usesTmp := false;
    var size := first.size;
    var maxSize := MEGABYTE;
    if size <= SMALL {
      maxSize := size + SMALL;
    }
    tmpBatch' := tmpBatch;
    n := 1;
    while n < |queue|
      invariant 1 <= n <= |queue|
      invariant forall i :: 1 <= i < n ==> Joins(queue, i)
      invariant size == TotalSize(queue[..n]) && maxSize == MaxSize(first)
      invariant result == AllOps(queue[..n])
      invariant usesTmp <==> exists i :: 1 <= i < n && queue[i].batch.Some?
      invariant tmpBatch' == if usesTmp then result else []
      invariant !usesTmp ==> result == first.batch.value
    {
      var w := queue[n];
      OneMoreWriter(queue, n);
      if w.sync && !first.sync {
        break;
      }
      if w.batch.Some? {
        size := size + w.size;
        if size > maxSize {
          break;
        }
        if !usesTmp {
          usesTmp := true;
          tmpBatch' := tmpBatch' + first.batch.value;
        }
        tmpBatch' := tmpBatch' + w.batch.value;
        result := tmpBatch';
      }
      assert Joins(queue, n);
      n := n + 1;
    }
    assert forall i :: 1 <= i < n ==> queue[..n][i] == queue[i];
  }

  // ---------------------------------------------------------------------------------------------
  // The protocol
  // ---------------------------------------------------------------------------------------------

  /** A group under way: its writers, its record, and how far it has come. */
  datatype Group = Group(members: seq<Writer>, batch: Batch, logged: bool, synced: bool, inserted: nat)

  const L0_COMPACTION_TRIGGER := 4
  const L0_SLOWDOWN_TRIGGER := 8
  const L0_STOP_TRIGGER := 12

  /**
   What MakeRoomForWrite looks at. delayed, switched, room: the writer at the head has slept, has switched the
   memtable, has room. memFull: the memtable is over write_buffer_size. imm: an immutable memtable waits for its
   flush. level0: the number of level-0 files. backlog: what compactions have left to do (see Backlog).
   scheduled: background work is scheduled.
   */
  datatype Store = Store(delayed: bool, switched: bool, room: bool, memFull: bool, imm: bool,
                         level0: nat, backlog: nat, scheduled: bool)

  /** NeedsCompaction, as far as level 0 goes, or a flush. */
  predicate NeedsWork(imm: bool, level0: nat) {
    imm || level0 >= L0_COMPACTION_TRIGGER
  }

  /**
   mem: everything inserted, in whichever memtable. arrived, finished: every writer that ever queued, and every one
   told that it is done, in order. groups: the finished groups. taken: every snapshot ever handed out.
   */
  datatype Protocol = Protocol(
    queue: seq<Writer>,
    tmpBatch: seq<Op>,
    lastSequence: nat,
    mem: set<Entry>,
    store: Store,
    active: Option<Group>,
    arrived: seq<Writer>,
    finished: seq<Writer>,
    groups: seq<Group>,
    taken: set<nat>)

  datatype Event =
    | Enqueue(w: Writer)
    | Delay
    | SwitchMemTable
    | RoomThere
    | FinishNull
    | StartGroup
    | AppendLog
    | Sync
    | InsertOne(full: bool)
    | FinishGroup
    | TakeSnapshot
    | BackgroundFlush(level0: nat, backlog: nat, more: bool)
    | BackgroundCompact(level0: nat, backlog: nat, more: bool)
    | BackgroundIdle

  /** force: a compaction request wants a new memtable. */
  predicate Forced(s: Protocol) {
    s.queue != [] && s.queue[0].batch == None && !s.store.switched
  }

  predicate Delays(s: Protocol) {
    s.queue != [] && s.queue[0].batch.Some? && !s.store.delayed && s.store.level0 >= L0_SLOWDOWN_TRIGGER
  }

  /** The writer at the head is in MakeRoomForWrite. */
  predicate Asking(s: Protocol) {
    s.active == None && s.queue != [] && !s.store.room
  }

  ghost predicate Enabled(s: Protocol, ev: Event) {
    match ev
    case Enqueue(w) => true
    case TakeSnapshot => true
    case Delay => Asking(s) && Delays(s)
    case RoomThere => Asking(s) && !Delays(s) && !Forced(s) && !s.store.memFull
    case SwitchMemTable =>
      && Asking(s) && !Delays(s) && (Forced(s) || s.store.memFull)
      && !s.store.imm && s.store.level0 < L0_STOP_TRIGGER
    case BackgroundFlush(_, _, _) => s.store.scheduled && s.store.imm
    case BackgroundCompact(_, _, _) => s.store.scheduled
    case BackgroundIdle => s.store.scheduled && !NeedsWork(s.store.imm, s.store.level0)
    case FinishNull => s.active == None && s.store.room && s.queue != [] && s.queue[0].batch == None
    case StartGroup => s.active == None && s.store.room && s.queue != [] && s.queue[0].batch.Some?
    case AppendLog => s.active.Some? && !s.active.value.logged
    case Sync => s.active.Some? && s.active.value.logged && !s.active.value.synced && s.queue != [] && s.queue[0].sync
    case InsertOne(full) =>
      && s.active.Some? && s.active.value.logged && s.queue != [] && (s.store.memFull ==> full)
      && (s.queue[0].sync ==> s.active.value.synced)
      && s.active.value.inserted < |s.active.value.batch.ops|
    case FinishGroup =>
      && s.active.Some? && s.active.value.logged && s.queue != []
      && (s.queue[0].sync ==> s.active.value.synced)
      && s.active.value.inserted == |s.active.value.batch.ops|
  }

  /** The next writer has to ask for room again. */
  function NextHead(t: Store): Store {
    t.(delayed := false, switched := false, room := false)
  }

  /**
   A flush empties imm_ into a table at level 0 or below. A compaction takes files from a level to the next, and
   lowers the backlog; a memtable may have been switched under it. Both schedule more work when it is needed.
   */
  ghost predicate WorkDone(t: Store, ev: Event, t': Store)
    requires ev.BackgroundFlush? || ev.BackgroundCompact?
  {
    && t' == t.(imm := ev.BackgroundCompact? && t.imm, level0 := ev.level0, backlog := ev.backlog,
                scheduled := ev.more || NeedsWork(ev.BackgroundCompact? && t.imm, ev.level0))
    && ev.level0 <= ev.backlog
    && if ev.BackgroundFlush? then ev.level0 <= t.level0 + 1 else ev.level0 <= t.level0 && ev.backlog < t.backlog
  }

  /** s' follows s by ev. */
  ghost predicate Step(s: Protocol, ev: Event, s': Protocol) {
    Enabled(s, ev) &&
    match ev
    case Enqueue(w) => s' == s.(queue := s.queue + [w], arrived := s.arrived + [w])
    case TakeSnapshot => s' == s.(taken := s.taken + {s.lastSequence})
    case Delay => s' == s.(store := s.store.(delayed := true))
    case RoomThere => s' == s.(store := s.store.(room := true))
    case SwitchMemTable => s' == s.(store := s.store.(switched := true, memFull := false, imm := true, scheduled := true))
    case BackgroundFlush(_, _, _) => s' == s.(store := s'.store) && WorkDone(s.store, ev, s'.store)
    case BackgroundCompact(_, _, _) => s' == s.(store := s'.store) && WorkDone(s.store, ev, s'.store)
    case BackgroundIdle => s' == s.(store := s.store.(scheduled := false))
    case FinishNull => s' == s.(queue := s.queue[1..], finished := s.finished + [s.queue[0]], store := NextHead(s.store))
    case StartGroup =>
      exists n: nat ::
        && IsGroup(s.queue, n)
        && s' == s.(tmpBatch := TmpAfter(s.queue[..n]),
                    active := Some(Group(s.queue[..n], Batch(s.lastSequence + 1, AllOps(s.queue[..n])), false, false, 0)))
    case AppendLog => s' == s.(active := Some(s.active.value.(logged := true)))
    case Sync => s' == s.(active := Some(s.active.value.(synced := true)))
    case InsertOne(full) =>
      var g := s.active.value;
      s' == s.(mem := s.mem + {EntryAt(g.batch, g.inserted)}, active := Some(g.(inserted := g.inserted + 1)),
               store := s.store.(memFull := full))
    case FinishGroup =>
      var g := s.active.value;
      s' == s.(queue := if |g.members| <= |s.queue| then s.queue[|g.members|..] else [],
               tmpBatch := [], lastSequence := s.lastSequence + |g.batch.ops|, active := None,
               finished := s.finished + g.members, groups := s.groups + [g], store := NextHead(s.store))
  }

  /** Opening the database schedules the work that is needed. */
  function Initial(lastSequence: nat, mem: set<Entry>, store: Store): Protocol {
    Protocol([], [], lastSequence, mem, store, None, [], [], [], {})
  }

  // ---------------------------------------------------------------------------------------------
  // The invariant
  // ---------------------------------------------------------------------------------------------

  /** The groups carry ops back to back, the first one from sequence start + 1 on. */
  ghost predicate Consecutive(groups: seq<Group>, start: nat, ops: seq<Op>) {
    if groups == [] then ops == []
    else
      var g := groups[|groups| - 1];
      && |g.batch.ops| <= |ops|
      && g.batch.ops == ops[|ops| - |g.batch.ops|..]
      && g.batch.first == start + (|ops| - |g.batch.ops|) + 1
      && Consecutive(groups[..|groups| - 1], start, ops[..|ops| - |g.batch.ops|])
  }

  ghost predicate NoSyncLeftBehind(g: Group) {
    forall w :: w in g.members && w.sync ==> g.synced
  }

  ghost predicate WholeOrNothing(g: Group, snapshot: nat) {
    g.batch.first + |g.batch.ops| - 1 <= snapshot || snapshot < g.batch.first
  }

  /** Queue order, and the sequence numbers it gives. */
  ghost predicate ValidQueue(s: Protocol, start: nat) {
    && s.finished + s.queue == s.arrived
    && s.lastSequence == start + |AllOps(s.finished)|
    && Consecutive(s.groups, start, AllOps(s.finished))
    && (forall g :: g in s.groups ==> g.batch.ops == AllOps(g.members) && NoSyncLeftBehind(g))
    && (s.active == None ==> s.tmpBatch == [])
    && (s.active.Some? ==> ValidActive(s, s.active.value))
  }

  /** What the memtable and the snapshots taken have to do with it. */
  ghost predicate ValidMem(s: Protocol, start: nat) {
    && (forall g, n :: g in s.groups && n in s.taken ==> WholeOrNothing(g, n))
    && (forall n :: n in s.taken ==> start <= n <= s.lastSequence)
    && (forall g :: g in s.groups ==> BatchEntries(g.batch) <= s.mem)
    && (s.active.Some? ==>
          forall i :: 0 <= i < s.active.value.inserted && i < |s.active.value.batch.ops| ==>
            EntryAt(s.active.value.batch, i) in s.mem)
  }

  /** While there is something a writer may wait for, background work is scheduled: no wake-up is lost. */
  predicate ValidStore(t: Store) {
    t.level0 <= t.backlog && (NeedsWork(t.imm, t.level0) ==> t.scheduled)
  }

  ghost predicate Valid(s: Protocol, start: nat) {
    ValidQueue(s, start) && ValidMem(s, start) && ValidStore(s.store)
  }

  ghost predicate ValidActive(s: Protocol, g: Group) {
    && 1 <= |g.members| <= |s.queue| && g.members == s.queue[..|g.members|]
    && (forall w :: w in g.members && w.sync ==> s.queue[0].sync)
    && g.batch == Batch(s.lastSequence + 1, AllOps(g.members))
    && g.inserted <= |g.batch.ops|
    && (g.synced ==> g.logged)
  }

  // ---------------------------------------------------------------------------------------------
  // Every step keeps it
  // ---------------------------------------------------------------------------------------------

  lemma {:induction false} InitialValid(start: nat, mem: set<Entry>, store: Store)
    requires (forall e :: e in mem ==> e.key.sequence <= start) && ValidStore(store)
    ensures Valid(Initial(start, mem, store), start)
  {
  }

  lemma {:induction false} EnqueueKeeps(s: Protocol, w: Writer, s': Protocol, start: nat)
    requires Valid(s, start) && Step(s, Enqueue(w), s')
    ensures Valid(s', start)
  {
    assert s.finished + (s.queue + [w]) == (s.finished + s.queue) + [w];
    if s.active.Some? {
      assert (s.queue + [w])[..|s.active.value.members|] == s.queue[..|s.active.value.members|];
    }
  }

  lemma {:induction false} FinishNullKeeps(s: Protocol, s': Protocol, start: nat)
    requires Valid(s, start) && Step(s, FinishNull, s')
    ensures Valid(s', start)
  {
    assert s.queue == [s.queue[0]] + s.queue[1..];
    assert s'.finished + s'.queue == s.finished + s.queue;
    AllOpsAppend(s.finished, [s.queue[0]]);
    assert [s.queue[0]][..0] == [] && AllOps([s.queue[0]]) == [];
    assert AllOps(s'.finished) == AllOps(s.finished);
  }

  lemma {:induction false} StartGroupKeeps(s: Protocol, s': Protocol, start: nat)
    requires Valid(s, start) && Step(s, StartGroup, s')
    ensures Valid(s', start)
  {
    var n: nat :| IsGroup(s.queue, n)
      && s' == s.(tmpBatch := TmpAfter(s.queue[..n]),
                  active := Some(Group(s.queue[..n], Batch(s.lastSequence + 1, AllOps(s.queue[..n])), false, false, 0)));
    forall w | w in s.queue[..n] && w.sync ensures s.queue[0].sync {
      var i :| 0 <= i < n && s.queue[i] == w;
      assert i > 0 ==> Joins(s.queue, i);
    }
  }

  lemma {:induction false} QuietKeeps(s: Protocol, ev: Event, s': Protocol, start: nat)
    requires Valid(s, start) && Step(s, ev, s')
    requires !ev.Enqueue? && !ev.FinishNull? && !ev.StartGroup? && !ev.InsertOne? && !ev.FinishGroup?
    ensures Valid(s', start)
  {
    hide AllOps, Consecutive, BatchEntries;
    if ev == TakeSnapshot {
      forall g | g in s.groups ensures g.batch.first + |g.batch.ops| - 1 <= s.lastSequence {
        GroupBelow(s.groups, start, AllOps(s.finished), g);
      }
    } else if ev == AppendLog || ev == Sync {
      assert s'.store == s.store;
    } else {
      StoreKeeps(s, ev, s');
    }
  }

  /** MakeRoomForWrite and the background work change nothing but the store. */
  lemma {:induction false} StoreKeeps(s: Protocol, ev: Event, s': Protocol)
    requires ValidStore(s.store) && Step(s, ev, s')
    requires ev.Delay? || ev.RoomThere? || ev.SwitchMemTable? || ev.BackgroundFlush? || ev.BackgroundCompact? || ev.BackgroundIdle?
    ensures s' == s.(store := s'.store) && ValidStore(s'.store)
  {
    hide Asking, Delays, Forced;
  }

  lemma {:induction false} GroupBelow(groups: seq<Group>, start: nat, ops: seq<Op>, g: Group)
    requires Consecutive(groups, start, ops) && g in groups
    ensures start < g.batch.first && g.batch.first + |g.batch.ops| - 1 <= start + |ops|
  {
    var last := groups[|groups| - 1];
    if g != last {
      GroupBelow(groups[..|groups| - 1], start, ops[..|ops| - |last.batch.ops|], g);
    }
  }

  lemma {:induction false} InsertOneKeeps(s: Protocol, full: bool, s': Protocol, start: nat)
    requires Valid(s, start) && Step(s, InsertOne(full), s')
    ensures Valid(s', start)
  {
    hide AllOps, Consecutive;
    assert ValidQueue(s', start);
  }

  lemma {:induction false} ConsecutiveGrows(groups: seq<Group>, start: nat, ops: seq<Op>, g: Group)
    requires Consecutive(groups, start, ops) && g.batch.first == start + |ops| + 1
    ensures Consecutive(groups + [g], start, ops + g.batch.ops)
  {
    var all, more := groups + [g], ops + g.batch.ops;
    assert all[..|all| - 1] == groups && all[|all| - 1] == g;
    assert more[..|ops|] == ops && more[|ops|..] == g.batch.ops;
  }

  lemma {:induction false} FinishGroupQueue(s: Protocol, s': Protocol, start: nat)
    requires ValidQueue(s, start) && Step(s, FinishGroup, s')
    ensures ValidQueue(s', start)
  {
    hide AllOps, Consecutive;
    var g := s.active.value;
    var n := |g.members|;
    assert s.queue == s.queue[..n] + s.queue[n..];
    assert s'.finished + s'.queue == s.finished + s.queue;
    AllOpsAppend(s.finished, g.members);
    ConsecutiveGrows(s.groups, start, AllOps(s.finished), g);
  }

  lemma {:induction false} FinishGroupKeeps(s: Protocol, s': Protocol, start: nat)
    requires Valid(s, start) && Step(s, FinishGroup, s')
    ensures Valid(s', start)
  {
    hide ValidQueue, AllOps, Consecutive;
    FinishGroupQueue(s, s', start);
    FinishGroupMem(s, s', start);
  }

  lemma {:induction false} FinishGroupMem(s: Protocol, s': Protocol, start: nat)
    requires Valid(s, start) && Step(s, FinishGroup, s')
    ensures ValidMem(s', start)
  {
    hide AllOps, Consecutive;
    var g := s.active.value;
    forall e | e in BatchEntries(g.batch) ensures e in s.mem {
      var i :| 0 <= i < |g.batch.ops| && e == EntryAt(g.batch, i);
    }
  }

  lemma {:induction false} StepKeeps(s: Protocol, ev: Event, s': Protocol, start: nat)
    requires Valid(s, start) && Step(s, ev, s')
    ensures Valid(s', start)
  {
    match ev
    case Enqueue(w) => EnqueueKeeps(s, w, s', start);
    case FinishNull => FinishNullKeeps(s, s', start);
    case StartGroup => StartGroupKeeps(s, s', start);
    case InsertOne(full) => InsertOneKeeps(s, full, s', start);
    case FinishGroup => FinishGroupKeeps(s, s', start);
    case _ => QuietKeeps(s, ev, s', start);
  }

  // ---------------------------------------------------------------------------------------------
  // Whole runs
  // ---------------------------------------------------------------------------------------------

  ghost predicate Run(run: seq<Protocol>, events: seq<Event>, start: nat) {
    && |run| == |events| + 1
    && run != [] && Below(run[0].mem, start) && ValidStore(run[0].store) && run[0] == Initial(start, run[0].mem, run[0].store)
    && forall i :: 0 <= i < |events| ==> Step(run[i], events[i], run[i + 1])
  }

  lemma {:induction false} RunKeeps(run: seq<Protocol>, events: seq<Event>, start: nat, i: nat)
    requires Run(run, events, start) && i < |run|
    ensures Valid(run[i], start)
  {
    hide ValidQueue, ValidMem, Step;
    if i == 0 {
      InitialValid(start, run[0].mem, run[0].store);
    } else {
      RunKeeps(run, events, start, i - 1);
      StepKeeps(run[i - 1], events[i - 1], run[i], start);
    }
  }

  /** Writers finish at most once each, in the order in which they queued. EveryWriterFinishes says that they do. */
  lemma {:induction false} FirstInFirstOut(run: seq<Protocol>, events: seq<Event>, start: nat, i: nat)
    requires Run(run, events, start) && i < |run|
    ensures run[i].finished + run[i].queue == run[i].arrived
    ensures run[i].finished <= run[i].arrived
  {
    RunKeeps(run, events, start, i);
  }

  /**
   The operation at place p of everything written so far, in queue order, carries sequence number
   start + p + 1: it is in the memtable under that number.
   */
  lemma {:induction false} SequenceOfOp(groups: seq<Group>, start: nat, ops: seq<Op>, p: nat) returns (g: Group, i: nat)
    requires Consecutive(groups, start, ops) && p < |ops|
    ensures g in groups && i < |g.batch.ops| && g.batch.ops[i] == ops[p] && g.batch.first + i == start + p + 1
  {
    g := groups[|groups| - 1];
    var n := |ops| - |g.batch.ops|;
    if p >= n {
      i := p - n;
    } else {
      g, i := SequenceOfOp(groups[..|groups| - 1], start, ops[..n], p);
    }
  }

  lemma {:induction false} SequencesFollowQueueOrder(run: seq<Protocol>, events: seq<Event>, start: nat, i: nat, p: nat)
    requires Run(run, events, start) && i < |run| && p < |AllOps(run[i].finished)|
    ensures var op := AllOps(run[i].finished)[p];
            Entry(InternalKey(op.key, start + p + 1, op.kind), op.value) in run[i].mem
    ensures run[i].lastSequence == start + |AllOps(run[i].finished)|
  {
    RunKeeps(run, events, start, i);
    var g, k := SequenceOfOp(run[i].groups, start, AllOps(run[i].finished), p);
    assert EntryAt(g.batch, k) in BatchEntries(g.batch);
  }

  /** A finished sync writer's record was synced; tmp_batch_ is empty whenever a group is built. */
  lemma {:induction false} SyncIsHonoured(run: seq<Protocol>, events: seq<Event>, start: nat, i: nat)
    requires Run(run, events, start) && i < |run|
    ensures forall g, w :: g in run[i].groups && w in g.members && w.sync ==> g.synced
    ensures Enabled(run[i], StartGroup) ==> run[i].tmpBatch == []
  {
    RunKeeps(run, events, start, i);
    forall g, w | g in run[i].groups && w in g.members && w.sync ensures g.synced {
      assert NoSyncLeftBehind(g);
    }
  }

  /** While a writer waits for a flush or for level 0 to shrink, the work it waits for is scheduled. */
  lemma {:induction false} NoWakeUpIsLost(run: seq<Protocol>, events: seq<Event>, start: nat, i: nat)
    requires Run(run, events, start) && i < |run|
    ensures var t := run[i].store; t.imm || t.level0 >= L0_STOP_TRIGGER ==> t.scheduled
  {
    RunKeeps(run, events, start, i);
  }

  /** No snapshot ever sees part of a group, finished or under way. */
  lemma {:induction false} SnapshotsSeeWholeGroups(run: seq<Protocol>, events: seq<Event>, start: nat, i: nat, n: nat)
    requires Run(run, events, start) && i < |run| && n in run[i].taken
    ensures forall g :: g in run[i].groups ==>
              (BatchEntries(g.batch) <= run[i].mem && forall e :: e in BatchEntries(g.batch) ==> e.key.sequence <= n)
              || (forall e :: e in BatchEntries(g.batch) ==> e.key.sequence > n)
    ensures run[i].active.Some? ==> forall e :: e in BatchEntries(run[i].active.value.batch) ==> e.key.sequence > n
  {
    RunKeeps(run, events, start, i);
    forall g | g in run[i].groups
      ensures (forall e :: e in BatchEntries(g.batch) ==> e.key.sequence <= n)
              || (forall e :: e in BatchEntries(g.batch) ==> e.key.sequence > n)
    {
      assert WholeOrNothing(g, n);
    }
  }

  // ---------------------------------------------------------------------------------------------
  // Progress
  // ---------------------------------------------------------------------------------------------

  /** Events that do not come from new callers. */
  predicate Internal(ev: Event) {
    !ev.Enqueue? && !ev.TakeSnapshot?
  }

  /** The stages of the writer at the head: asking for room, waiting to start, under way. */
  function Stage(s: Protocol): nat {
    if s.active.Some? then 0 else if s.store.room then 1 else 2
  }

  /** The steps that the group under way may still take before it can finish, or the switch that room needs. */
  function Left(s: Protocol): nat {
    match s.active
    case None => if !s.store.room && (Forced(s) || s.store.memFull) then 1 else 0
    case Some(g) =>
      (if g.logged then 0 else 1) + (if g.synced then 0 else 1)
      + if g.inserted <= |g.batch.ops| then |g.batch.ops| - g.inserted else 0
  }

  /** The flush, the compactions and the short steps still to come. */
  function Flushes(s: Protocol): nat { if s.store.imm then 1 else 0 }
  function Moves(s: Protocol): nat { s.store.backlog }
  function Rests(s: Protocol): nat { (if s.store.delayed then 0 else 1) + (if s.store.scheduled then 1 else 0) }

  ghost predicate HeadFinished(s: Protocol, s': Protocol)
    requires s.queue != []
  {
    s.finished + [s.queue[0]] <= s'.finished
  }

  /** The writer at the head is still there, and nearer to its end. */
  ghost predicate Nearer(s: Protocol, s': Protocol)
    requires s.queue != []
  {
    && s'.queue != [] && s'.queue[0] == s.queue[0] && s'.finished == s.finished
    && (Stage(s), Left(s), Flushes(s), Moves(s), Rests(s) decreases to Stage(s'), Left(s'), Flushes(s'), Moves(s'), Rests(s'))
  }

  /** Every internal step finishes the writer at the head or brings it nearer to that. */
  lemma {:induction false} StepsAreProgress(s: Protocol, ev: Event, s': Protocol, start: nat)
    requires Valid(s, start) && Internal(ev) && Step(s, ev, s') && s.queue != []
    ensures HeadFinished(s, s') || Nearer(s, s')
  {
    hide Consecutive, AllOps, ValidMem;
    if ev == FinishGroup {
      var g := s.active.value;
      assert g.members == [s.queue[0]] + g.members[1..];
      assert s.finished + g.members == s.finished + [s.queue[0]] + g.members[1..];
    }
  }

  /** As far from its end as before. */
  ghost predicate AsNear(s: Protocol, s': Protocol) {
    && Stage(s') == Stage(s) && Left(s') == Left(s)
    && Flushes(s') == Flushes(s) && Moves(s') == Moves(s) && Rests(s') == Rests(s)
  }

  /** New callers and snapshots do not set it back. */
  lemma {:induction false} CallersDoNotDelay(s: Protocol, ev: Event, s': Protocol)
    requires s.queue != [] && !Internal(ev) && Step(s, ev, s')
    ensures s'.queue != [] && s'.queue[0] == s.queue[0] && s'.finished == s.finished && AsNear(s, s')
  {
  }

  /** The first writer from n on that may not join. */
  lemma {:induction false} GroupEnds(queue: seq<Writer>, n: nat) returns (end: nat)
    requires 1 <= n <= |queue| && queue[0].batch.Some?
    requires forall i :: 1 <= i < n ==> Joins(queue, i)
    ensures IsGroup(queue, end)
    decreases |queue| - n
  {
    hide Joins;
    if n == |queue| || !Joins(queue, n) {
      end := n;
    } else {
      end := GroupEnds(queue, n + 1);
    }
  }

  /** MakeRoomForWrite: its own next step, or the background work that it waits for. */
  lemma {:induction false} RoomIsMade(s: Protocol) returns (ev: Event, s': Protocol)
    requires Asking(s) && ValidStore(s.store)
    ensures Internal(ev) && Step(s, ev, s')
  {
    var t := s.store;
    if Delays(s) {
      ev, s' := Delay, s.(store := t.(delayed := true));
    } else if !Forced(s) && !t.memFull {
      ev, s' := RoomThere, s.(store := t.(room := true));
    } else if t.imm {
      ev := BackgroundFlush(t.level0, t.backlog, false);
      s' := s.(store := t.(imm := false, scheduled := NeedsWork(false, t.level0)));
    } else if t.level0 >= L0_STOP_TRIGGER {
      ev := BackgroundCompact(t.level0 - 1, t.backlog - 1, false);
      s' := s.(store := t.(imm := false, level0 := t.level0 - 1, backlog := t.backlog - 1, scheduled := NeedsWork(false, t.level0 - 1)));
    } else {
      ev, s' := SwitchMemTable, s.(store := t.(switched := true, memFull := false, imm := true, scheduled := true));
    }
  }

  /** The group under way: append, sync, insert, finish. */
  lemma {:induction false} GroupGoesOn(s: Protocol, start: nat) returns (ev: Event, s': Protocol)
    requires Valid(s, start) && s.queue != [] && s.active.Some?
    ensures Internal(ev) && Step(s, ev, s')
  {
    hide Consecutive, AllOps, ValidMem;
    var g := s.active.value;
    if !g.logged {
      ev, s' := AppendLog, s.(active := Some(g.(logged := true)));
    } else if s.queue[0].sync && !g.synced {
      ev, s' := Sync, s.(active := Some(g.(synced := true)));
    } else if g.inserted < |g.batch.ops| {
      ev := InsertOne(s.store.memFull);
      s' := s.(mem := s.mem + {EntryAt(g.batch, g.inserted)}, active := Some(g.(inserted := g.inserted + 1)));
    } else {
      ev := FinishGroup;
      s' := s.(queue := s.queue[|g.members|..], tmpBatch := [], lastSequence := s.lastSequence + |g.batch.ops|, active := None,
               finished := s.finished + g.members, groups := s.groups + [g], store := NextHead(s.store));
    }
  }

  /** While writers wait, some internal step can be taken. */
  lemma {:induction false} NeverStuck(s: Protocol, start: nat) returns (ev: Event, s': Protocol)
    requires Valid(s, start) && s.queue != []
    ensures Internal(ev) && Step(s, ev, s')
  {
    hide Consecutive, AllOps, ValidMem, IsGroup, TmpAfter;
    if Asking(s) {
      ev, s' := RoomIsMade(s);
    } else if s.active == None {
      if s.queue[0].batch == None {
        ev, s' := FinishNull, s.(queue := s.queue[1..], finished := s.finished + [s.queue[0]], store := NextHead(s.store));
      } else {
        var n := GroupEnds(s.queue, 1);
        assert n <= |s.queue| by { GroupInQueue(s.queue, n); }
        ev := StartGroup;
        s' := s.(tmpBatch := TmpAfter(s.queue[..n]),
                 active := Some(Group(s.queue[..n], Batch(s.lastSequence + 1, AllOps(s.queue[..n])), false, false, 0)));
      }
    } else {
      ev, s' := GroupGoesOn(s, start);
    }
  }

  lemma {:induction false} GroupInQueue(queue: seq<Writer>, n: nat)
    requires IsGroup(queue, n)
    ensures n <= |queue|
  {
  }

  /** Internal steps from s on. */
  ghost predicate Path(s: Protocol, run: seq<Protocol>, events: seq<Event>) {
    && |run| == |events| + 1 && run[0] == s
    && forall i :: 0 <= i < |events| ==> Internal(events[i]) && Step(run[i], events[i], run[i + 1])
  }

  /** From any reachable state, finitely many internal steps finish the first n writers of the queue, in their order. */
  lemma {:induction false} WritersCanFinish(s: Protocol, start: nat, n: nat) returns (run: seq<Protocol>, events: seq<Event>)
    requires Valid(s, start) && n <= |s.queue|
    ensures Path(s, run, events) && s.finished + s.queue[..n] <= run[|run| - 1].finished
    decreases n, Stage(s), Left(s), Flushes(s), Moves(s), Rests(s)
  {
    hide Step, Valid, Stage, Left, Flushes, Moves, Rests;
    if n == 0 {
      run, events := [s], [];
      assert s.finished + s.queue[..0] == s.finished;
    } else {
      var ev, s' := NeverStuck(s, start);
      StepsAreProgress(s, ev, s', start);
      StepKeeps(s, ev, s', start);
      QueuesGoOn(s, ev, s', start);
      var done := |s'.finished| - |s.finished|;
      var n' := if done <= n then n - done else 0;
      var tail, more := WritersCanFinish(s', start, n');
      run, events := [s] + tail, [ev] + more;
      var last := tail[|tail| - 1].finished;
      assert s'.finished <= last;
      if done <= n {
        FinishedSoFar(s, s', n, done);
      } else {
        assert s.finished + s.queue[..n] <= s'.finished by { FinishedMore(s, s', n, done); }
      }
    }
  }

  /** What a step finishes comes off the front of the queue. */
  lemma {:induction false} QueuesGoOn(s: Protocol, ev: Event, s': Protocol, start: nat)
    requires Valid(s, start) && Step(s, ev, s') && Internal(ev)
    ensures |s.finished| <= |s'.finished| && s'.finished + s'.queue == s.finished + s.queue
  {
    StepKeeps(s, ev, s', start);
  }

  lemma {:induction false} FinishedSoFar(s: Protocol, s': Protocol, n: nat, done: nat)
    requires s'.finished + s'.queue == s.finished + s.queue && |s'.finished| == |s.finished| + done && done <= n <= |s.queue|
    ensures n - done <= |s'.queue| && s'.finished + s'.queue[..n - done] == s.finished + s.queue[..n]
  {
    var all := s.finished + s.queue;
    assert s'.finished + s'.queue[..n - done] == all[..|s.finished| + n];
    assert s.finished + s.queue[..n] == all[..|s.finished| + n];
  }

  lemma {:induction false} FinishedMore(s: Protocol, s': Protocol, n: nat, done: nat)
    requires s'.finished + s'.queue == s.finished + s.queue && |s'.finished| == |s.finished| + done && n <= done && n <= |s.queue|
    ensures s.finished + s.queue[..n] <= s'.finished
  {
    var all := s.finished + s.queue;
    assert s.finished + s.queue[..n] == all[..|s.finished| + n];
    assert s'.finished == all[..|s'.finished|];
  }

  // ---------------------------------------------------------------------------------------------
  // Endless runs
  // ---------------------------------------------------------------------------------------------

  ghost predicate StepAt(run: nat -> Protocol, events: nat -> Event, i: nat) {
    Step(run(i), events(i), run(i + 1))
  }

  /** A run without end; while nothing else happens, snapshots are taken. */
  ghost predicate Endless(run: nat -> Protocol, events: nat -> Event, start: nat) {
    Valid(run(0), start) && forall i: nat :: StepAt(run, events, i)
  }

  ghost predicate ActsFrom(events: nat -> Event, i: nat) {
    exists j: nat :: i <= j && Internal(events(j))
  }

  /** While writers wait, an internal step is taken sooner or later. */
  ghost predicate Fair(run: nat -> Protocol, events: nat -> Event) {
    forall i: nat :: run(i).queue != [] ==> ActsFrom(events, i)
  }

  lemma {:induction false} EndlessKeeps(run: nat -> Protocol, events: nat -> Event, start: nat, i: nat)
    requires Endless(run, events, start)
    ensures Valid(run(i), start)
  {
    hide Valid, Step;
    if i > 0 {
      EndlessKeeps(run, events, start, i - 1);
      assert StepAt(run, events, i - 1);
      StepKeeps(run(i - 1), events(i - 1), run(i), start);
    }
  }

  /** The first internal step from i on. */
  lemma {:induction false} FirstAct(events: nat -> Event, i: nat, bound: nat) returns (j: nat)
    requires i <= bound && Internal(events(bound))
    ensures i <= j && Internal(events(j)) && forall k :: i <= k < j ==> !Internal(events(k))
    decreases bound - i
  {
    if Internal(events(i)) {
      j := i;
    } else {
      j := FirstAct(events, i + 1, bound);
    }
  }

  /** Until then the queue only grows at its end, and the writer at its head is as near to its end as before. */
  lemma {:induction false} Undisturbed(run: nat -> Protocol, events: nat -> Event, start: nat, i: nat, j: nat)
    requires Endless(run, events, start) && i <= j && run(i).queue != []
    requires forall k :: i <= k < j ==> !Internal(events(k))
    ensures run(i).queue <= run(j).queue && run(j).finished == run(i).finished
    ensures AsNear(run(i), run(j))
    decreases j - i
  {
    hide Step, Valid, Stage, Left, Flushes, Moves, Rests;
    if i < j {
      Undisturbed(run, events, start, i, j - 1);
      assert StepAt(run, events, j - 1);
      CallersDoNotDelay(run(j - 1), events(j - 1), run(j));
      CallersQueueBehind(run(j - 1), events(j - 1), run(j));
    }
  }

  lemma {:induction false} CallersQueueBehind(s: Protocol, ev: Event, s': Protocol)
    requires !Internal(ev) && Step(s, ev, s')
    ensures s.queue <= s'.queue
  {
  }

  /** In every fair run the first n writers of the queue finish, in their order. */
  lemma {:induction false} QueueFinishes(run: nat -> Protocol, events: nat -> Event, start: nat, i: nat, n: nat) returns (j: nat)
    requires Endless(run, events, start) && Fair(run, events) && n <= |run(i).queue|
    ensures i <= j && run(i).finished + run(i).queue[..n] <= run(j).finished
    decreases n, Stage(run(i)), Left(run(i)), Flushes(run(i)), Moves(run(i)), Rests(run(i))
  {
    hide Step, Valid, Stage, Left, Flushes, Moves, Rests, Internal;
    if n == 0 {
      j := i;
      assert run(i).finished + run(i).queue[..0] == run(i).finished;
    } else {
      assert ActsFrom(events, i);
      var bound: nat :| i <= bound && Internal(events(bound));
      var k := FirstAct(events, i, bound);
      Undisturbed(run, events, start, i, k);
      var s, s' := run(k), run(k + 1);
      EndlessKeeps(run, events, start, k);
      assert StepAt(run, events, k);
      StepsAreProgress(s, events(k), s', start);
      QueuesGoOn(s, events(k), s', start);
      var done := |s'.finished| - |s.finished|;
      var n' := if done <= n then n - done else 0;
      if done <= n {
        FinishedSoFar(s, s', n, done);
      } else {
        FinishedMore(s, s', n, done);
      }
      j := QueueFinishes(run, events, start, k + 1, n');
      assert run(i).queue[..n] == s.queue[..n];
      assert s'.finished <= run(j).finished;
    }
  }

  /** In every fair run each writer that has queued is told some day that it is done, in the order of arrival. */
  lemma {:induction false} EveryWriterFinishes(run: nat -> Protocol, events: nat -> Event, start: nat, i: nat) returns (j: nat)
    requires Endless(run, events, start) && Fair(run, events)
    ensures i <= j && run(i).arrived <= run(j).finished
  {
    hide Step, Endless, AllOps, Consecutive, ValidMem;
    EndlessKeeps(run, events, start, i);
    j := QueueFinishes(run, events, start, i, |run(i).queue|);
    assert run(i).queue[..|run(i).queue|] == run(i).queue;
  }
}
