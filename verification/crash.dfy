/**
 Crash safety over whole runs (DBImpl::Write, MakeRoomForWrite, CompactMemTable, DeleteObsoleteFiles,
 Recover, RecoverLogFile, DB::Open): a state machine over what is on disk and what is in memory.
 Appended bytes survive a crash; memory does not.
 */
module CrashSafety {
  import opened Keys
  import opened Version

  datatype Op = Op(key: UserKey, kind: Kind, value: Bytes)

  /** A log record: one group of operations under consecutive sequence numbers. */
  datatype Batch = Batch(first: nat, ops: seq<Op>)

  function EntryAt(b: Batch, i: nat): Entry
    requires i < |b.ops|
  {
    Entry(InternalKey(b.ops[i].key, b.first + i, b.ops[i].kind), b.ops[i].value)
  }

  function BatchEntries(b: Batch): set<Entry> {
    set i | 0 <= i < |b.ops| :: EntryAt(b, i)
  }

  function LogEntries(log: seq<Batch>): set<Entry> {
    set b, e | b in log && e in BatchEntries(b) :: e
  }

  /** The entries of the logs numbered lo and up, below hi. */
  ghost function LogsBetween(logs: map<nat, seq<Batch>>, lo: nat, hi: nat): set<Entry> {
    set n, e | n in logs && lo <= n < hi && e in LogEntries(logs[n]) :: e
  }

  ghost function LogsFrom(logs: map<nat, seq<Batch>>, lo: nat): set<Entry> {
    set n, e | n in logs && lo <= n && e in LogEntries(logs[n]) :: e
  }

  ghost function TableEntries(tables: map<nat, set<Entry>>, live: set<nat>): set<Entry> {
    set t, e | t in live && t in tables && e in tables[t] :: e
  }

  /** The last complete manifest record decides what a recovery starts from. */
  datatype Manifest = Manifest(logNumber: nat, tables: set<nat>, lastSequence: nat, nextFile: nat)

  datatype Disk = Disk(logs: map<nat, seq<Batch>>, tables: map<nat, set<Entry>>, manifest: Manifest) {
    /** Everything the disk still holds for the next recovery. */
    ghost function Durable(): set<Entry> {
      TableEntries(tables, manifest.tables) + LogsFrom(logs, manifest.logNumber)
    }
  }

  /** The write of the group at the front: not started, in the log, in the memtable too. */
  datatype Writing = Idle | Logged(batch: Batch) | Inserted(batch: Batch)

  datatype Memory = Memory(
    mem: set<Entry>,
    imm: Option<set<Entry>>,
    logFile: nat,            // logfile_number_
    lastSequence: nat,
    nextFile: nat,
    pending: Option<nat>,    // table written for imm_, not yet in the manifest
    pinned: set<nat>,        // tables of older versions still referenced
    writing: Writing)

  /** acked: acknowledged entries; limbo: entries of groups that were in the log, unacknowledged, at a crash. */
  datatype State = State(disk: Disk, running: Option<Memory>, acked: set<Entry>, limbo: set<Entry>)

  function InLog(w: Writing): set<Entry> {
    if w == Idle then {} else BatchEntries(w.batch)
  }

  function ImmOf(m: Memory): set<Entry> {
    if m.imm.Some? then m.imm.value else {}
  }

  // ---------------------------------------------------------------------------------------------
  // The invariant
  // ---------------------------------------------------------------------------------------------

  ghost predicate Below(entries: set<Entry>, bound: nat) {
    forall e :: e in entries ==> e.key.sequence <= bound
  }

  /** No sequence number is ever handed out twice. */
  ghost predicate SequencesUnique(entries: set<Entry>) {
    forall d, e :: d in entries && e in entries && d.key.sequence == e.key.sequence ==> d == e
  }

  ghost predicate ValidDisk(d: Disk) {
    var m := d.manifest;
    && m.tables <= d.tables.Keys
    && (forall t :: t in m.tables ==> t < m.nextFile)
    && m.logNumber < m.nextFile
    && (forall n, b :: n in d.logs && b in d.logs[n] ==> b.first >= 1)
    && Below(TableEntries(d.tables, m.tables), m.lastSequence)
  }

  ghost predicate ValidMemory(d: Disk, m: Memory) {
    var f := d.manifest;
    && m.logFile in d.logs && f.logNumber <= m.logFile < m.nextFile
    && (forall n :: n in d.logs ==> n <= m.logFile)
    && f.nextFile <= m.nextFile && f.lastSequence <= m.lastSequence
    // The logs between the manifest's number and the current one are exactly what imm_ holds.
    && LogsBetween(d.logs, f.logNumber, m.logFile) == ImmOf(m)
    && LogEntries(d.logs[m.logFile]) == m.mem + (if m.writing.Logged? then BatchEntries(m.writing.batch) else {})
    && (m.pending.Some? ==>
          && m.imm.Some? && m.pending.value < m.nextFile && m.pending.value !in f.tables
          && m.pending.value in d.tables && d.tables[m.pending.value] == m.imm.value)
    && (m.writing != Idle ==> m.writing.batch.first == m.lastSequence + 1)
    && (m.writing.Inserted? ==> BatchEntries(m.writing.batch) <= m.mem)
    && Below(TableEntries(d.tables, f.tables) + ImmOf(m), m.lastSequence)
    && (forall e :: e in m.mem && !(m.writing.Inserted? && e in BatchEntries(m.writing.batch)) ==> e.key.sequence <= m.lastSequence)
  }

  ghost predicate Valid(s: State) {
    && ValidDisk(s.disk)
    && SequencesUnique(s.disk.Durable())
    && s.disk.Durable() == s.acked + s.limbo + (if s.running.Some? then InLog(s.running.value.writing) else {})
    && (s.running.Some? ==> ValidMemory(s.disk, s.running.value) && Below(s.acked + s.limbo, s.running.value.lastSequence))
  }

  // ---------------------------------------------------------------------------------------------
  // Steps
  // ---------------------------------------------------------------------------------------------

  /** Above every number of a finite set. */
  ghost function Above(s: set<nat>, bound: nat): (r: nat)
    ensures bound <= r && forall n :: n in s ==> n < r
  {
    if s == {} then bound
    else
      var n :| n in s;
      var r := Above(s - {n}, bound);
      assert forall k :: k in s ==> k == n || k in s - {n};
      if n < r then r else n + 1
  }

  /**
   What a recovery that reaches the end leaves. made are the tables it wrote from log contents. The
   last log is either reused, with its contents back in the memtable, or replaced by a new empty one.
   The manifest is either rewritten or, when nothing had to be written, left alone.
   */
  ghost predicate Recovered(s: State, r: State, made: map<nat, set<Entry>>) {
    var d, f := s.disk, s.disk.manifest;
    && r.acked == s.acked && r.limbo == s.limbo && r.running.Some?
    && var m := r.running.value;
    && m.imm == None && m.pending == None && m.pinned == {} && m.writing == Idle
    && r.disk.tables == d.tables + made
    && (forall t :: t in made ==> f.nextFile <= t < m.nextFile)
    && f.nextFile <= m.nextFile && m.logFile < m.nextFile && f.logNumber <= m.logFile
    && f.lastSequence <= m.lastSequence && Below(LogsFrom(d.logs, f.logNumber), m.lastSequence)
    && (forall n :: n in d.logs ==> n <= m.logFile)
    && (|| (&& m.logFile in d.logs && r.disk.logs == d.logs && m.mem == LogEntries(d.logs[m.logFile])
            && TableEntries(made, made.Keys) == LogsBetween(d.logs, f.logNumber, m.logFile))
        || (&& m.logFile !in d.logs && r.disk.logs == d.logs[m.logFile := []] && m.mem == {}
            && TableEntries(made, made.Keys) == LogsFrom(d.logs, f.logNumber)))
    && (|| r.disk.manifest == Manifest(m.logFile, f.tables + made.Keys, m.lastSequence, m.nextFile)
        || (made == map[] && r.disk.manifest == f))
  }

  ghost predicate IsRunning(s: State) {
    s.running.Some? && ValidMemory(s.disk, s.running.value)
  }

  /** log_->AddRecord of the group's batch. */
  ghost function AppendToLog(s: State, ops: seq<Op>): State
    requires IsRunning(s) && s.running.value.writing == Idle
  {
    var d, m := s.disk, s.running.value;
    var b := Batch(m.lastSequence + 1, ops);
    s.(disk := d.(logs := d.logs[m.logFile := d.logs[m.logFile] + [b]]), running := Some(m.(writing := Logged(b))))
  }

  /** WriteBatchInternal::InsertInto. */
  ghost function InsertIntoMemTable(s: State): State
    requires IsRunning(s) && s.running.value.writing.Logged?
  {
    var m := s.running.value;
    s.(running := Some(m.(mem := m.mem + BatchEntries(m.writing.batch), writing := Inserted(m.writing.batch))))
  }

  /** SetLastSequence, and the group's writers are told that they are done. */
  ghost function Acknowledge(s: State): State
    requires IsRunning(s) && s.running.value.writing.Inserted?
  {
    var m := s.running.value;
    s.(acked := s.acked + BatchEntries(m.writing.batch),
       running := Some(m.(lastSequence := m.lastSequence + |m.writing.batch.ops|, writing := Idle)))
  }

  /** MakeRoomForWrite's last branch: a new log and memtable, only while there is no imm_. */
  ghost function SwitchMemTable(s: State): State
    requires IsRunning(s) && s.running.value.writing == Idle && s.running.value.imm == None
  {
    var d, m := s.disk, s.running.value;
    s.(disk := d.(logs := d.logs[m.nextFile := []]),
       running := Some(m.(mem := {}, imm := Some(m.mem), logFile := m.nextFile, nextFile := m.nextFile + 1)))
  }

  /** WriteLevel0Table's file. */
  ghost function WriteTable(s: State): State
    requires IsRunning(s) && s.running.value.imm.Some? && s.running.value.pending == None
  {
    var d, m := s.disk, s.running.value;
    s.(disk := d.(tables := d.tables[m.nextFile := m.imm.value]),
       running := Some(m.(pending := Some(m.nextFile), nextFile := m.nextFile + 1)))
  }

  /** CompactMemTable's LogAndApply: the table goes in, the log number moves to logfile_number_. */
  ghost function InstallTable(s: State): State
    requires IsRunning(s) && s.running.value.imm.Some? && s.running.value.pending.Some?
  {
    var d, m := s.disk, s.running.value;
    s.(disk := d.(manifest := Manifest(m.logFile, d.manifest.tables + {m.pending.value}, m.lastSequence, m.nextFile)),
       running := Some(m.(imm := None, pending := None)))
  }

  ghost predicate SameContents(d: Disk, gone: set<nat>, made: map<nat, set<Entry>>) {
    TableEntries(made, made.Keys) == TableEntries(d.tables, gone)
  }

  /** A compaction that drops nothing, or a move: new tables with the old contents. The old ones may stay pinned. */
  ghost function RewriteTables(s: State, gone: set<nat>, made: map<nat, set<Entry>>): State
    requires IsRunning(s) && gone <= s.disk.manifest.tables && SameContents(s.disk, gone, made)
    requires forall t :: t in made ==> t >= s.running.value.nextFile
  {
    var d, m := s.disk, s.running.value;
    var next := Above(made.Keys, m.nextFile);
    s.(disk := d.(tables := d.tables + made,
                  manifest := Manifest(d.manifest.logNumber, d.manifest.tables - gone + made.Keys, m.lastSequence, next)),
       running := Some(m.(nextFile := next, pinned := m.pinned + gone)))
  }

  /** Iterators and readers let go of old versions. */
  ghost function Unpin(s: State, released: set<nat>): State
    requires IsRunning(s)
  {
    var m := s.running.value;
    s.(running := Some(m.(pinned := m.pinned - released)))
  }

  /** DeleteObsoleteFiles keeps logs numbered LogNumber() and up. */
  ghost function DeleteLog(s: State, n: nat): State
    requires IsRunning(s) && n < s.disk.manifest.logNumber
  {
    s.(disk := s.disk.(logs := s.disk.logs - {n}))
  }

  /** DeleteObsoleteFiles keeps the tables of every version still referenced, and pending outputs. */
  ghost function LiveTables(d: Disk, m: Memory): set<nat> {
    d.manifest.tables + m.pinned + (if m.pending.Some? then {m.pending.value} else {})
  }

  ghost function DeleteTable(s: State, t: nat): State
    requires IsRunning(s) && t !in LiveTables(s.disk, s.running.value)
  {
    s.(disk := s.disk.(tables := s.disk.tables - {t}))
  }

  ghost function Crash(s: State): State
    requires IsRunning(s)
  {
    State(s.disk, None, s.acked, s.limbo + InLog(s.running.value.writing))
  }

  /** A recovery that crashes before its manifest record leaves tables and an empty log behind. */
  ghost function RecoveryDebris(s: State, made: map<nat, set<Entry>>, newLog: Option<nat>): State
    requires s.running == None
    requires forall t :: t in made ==> t >= s.disk.manifest.nextFile
    requires newLog.Some? ==> forall n :: n in s.disk.logs ==> n < newLog.value
  {
    var d := s.disk;
    s.(disk := d.(tables := d.tables + made, logs := if newLog.Some? then d.logs[newLog.value := []] else d.logs))
  }

  /** s' comes from s by one step. */
  ghost predicate Next(s: State, s': State) {
    || (s.running == None && (
           || (exists made :: Recovered(s, s', made))
           || (exists made: map<nat, set<Entry>>, newLog: Option<nat> ::
                 && (forall t :: t in made ==> t >= s.disk.manifest.nextFile)
                 && (newLog.Some? ==> forall n :: n in s.disk.logs ==> n < newLog.value)
                 && s' == RecoveryDebris(s, made, newLog))))
    || (IsRunning(s) &&
        var m := s.running.value;
        || s' == Crash(s)
        || (m.writing == Idle && exists ops :: s' == AppendToLog(s, ops))
        || (m.writing.Logged? && s' == InsertIntoMemTable(s))
        || (m.writing.Inserted? && s' == Acknowledge(s))
        || (m.writing == Idle && m.imm == None && s' == SwitchMemTable(s))
        || (m.imm.Some? && m.pending == None && s' == WriteTable(s))
        || (m.imm.Some? && m.pending.Some? && s' == InstallTable(s))
        || (exists gone, made ::
              && gone <= s.disk.manifest.tables && SameContents(s.disk, gone, made)
              && (forall t :: t in made ==> t >= m.nextFile)
              && s' == RewriteTables(s, gone, made))
        || (exists released :: s' == Unpin(s, released))
        || (exists n: nat :: n < s.disk.manifest.logNumber && s' == DeleteLog(s, n))
        || (exists t :: t !in LiveTables(s.disk, m) && s' == DeleteTable(s, t)))
  }

  // ---------------------------------------------------------------------------------------------
  // How logs and tables change
  // ---------------------------------------------------------------------------------------------

  lemma {:induction false} AppendEntries(log: seq<Batch>, b: Batch)
    ensures LogEntries(log + [b]) == LogEntries(log) + BatchEntries(b)
  {
  }

  lemma {:induction false} LogsSplit(logs: map<nat, seq<Batch>>, lo: nat, f: nat)
    requires f in logs && lo <= f && forall n :: n in logs ==> n <= f
    ensures LogsFrom(logs, lo) == LogsBetween(logs, lo, f) + LogEntries(logs[f])
  {
  }

  lemma {:induction false} LogsBetweenKept(logs: map<nat, seq<Batch>>, logs': map<nat, seq<Batch>>, lo: nat, hi: nat)
    requires forall n :: lo <= n < hi ==> (n in logs <==> n in logs') && (n in logs ==> logs[n] == logs'[n])
    ensures LogsBetween(logs, lo, hi) == LogsBetween(logs', lo, hi)
  {
  }

  /** Starting a new, empty log above all others. */
  lemma {:induction false} NewLogAbove(logs: map<nat, seq<Batch>>, lo: nat, n: nat)
    requires forall k :: k in logs ==> k < n
    ensures LogsBetween(logs[n := []], lo, n) == LogsFrom(logs, lo) == LogsFrom(logs[n := []], lo)
    ensures LogEntries([]) == {}
  {
    var logs' := logs[n := []];
    assert LogEntries([]) == {};
    forall e | e in LogsFrom(logs, lo) ensures e in LogsBetween(logs', lo, n) && e in LogsFrom(logs', lo) {
      var k :| k in logs && lo <= k && e in LogEntries(logs[k]);
      assert k in logs' && logs'[k] == logs[k];
    }
  }

  lemma {:induction false} TablesKept(tables: map<nat, set<Entry>>, tables': map<nat, set<Entry>>, live: set<nat>)
    requires forall t :: t in live ==> (t in tables <==> t in tables') && (t in tables ==> tables[t] == tables'[t])
    ensures TableEntries(tables, live) == TableEntries(tables', live)
  {
  }

  lemma {:induction false} UniqueExtended(E: set<Entry>, b: Batch, bound: nat)
    requires SequencesUnique(E) && Below(E, bound) && b.first == bound + 1
    ensures SequencesUnique(E + BatchEntries(b))
  {
    forall e | e in BatchEntries(b) ensures e.key.sequence > bound {
    }
    forall d, e | d in BatchEntries(b) && e in BatchEntries(b) && d.key.sequence == e.key.sequence ensures d == e {
    }
  }

  /** Everything durable is in a table of the manifest, in imm_, or in the current log. */
  lemma {:induction false} DurableRunning(s: State)
    requires IsRunning(s)
    ensures var d, m := s.disk, s.running.value;
            d.Durable() == TableEntries(d.tables, d.manifest.tables) + ImmOf(m) + LogEntries(d.logs[m.logFile])
  {
    LogsSplit(s.disk.logs, s.disk.manifest.logNumber, s.running.value.logFile);
  }

  // ---------------------------------------------------------------------------------------------
  // Every step keeps the invariant
  // ---------------------------------------------------------------------------------------------

  lemma {:induction false} AppendKeeps(s: State, ops: seq<Op>)
    requires Valid(s) && IsRunning(s) && s.running.value.writing == Idle
    ensures Valid(AppendToLog(s, ops))
  {
    hide LogEntries, LogsBetween, LogsFrom, TableEntries, BatchEntries, SequencesUnique;
    var s' := AppendToLog(s, ops);
    var d, d', m, b := s.disk, s'.disk, s.running.value, s'.running.value.writing.batch;
    AppendEntries(d.logs[m.logFile], b);
    LogsBetweenKept(d.logs, d'.logs, d.manifest.logNumber, m.logFile);
    assert ValidMemory(d', s'.running.value);
    DurableRunning(s);
    DurableRunning(s');
    assert d'.Durable() == d.Durable() + BatchEntries(b);
    UniqueExtended(d.Durable(), b, m.lastSequence);
  }

  lemma {:induction false} InsertKeeps(s: State)
    requires Valid(s) && IsRunning(s) && s.running.value.writing.Logged?
    ensures Valid(InsertIntoMemTable(s))
  {
  }

  lemma {:induction false} AcknowledgeKeeps(s: State)
    requires Valid(s) && IsRunning(s) && s.running.value.writing.Inserted?
    ensures Valid(Acknowledge(s))
  {
    var m := s.running.value;
    forall e | e in BatchEntries(m.writing.batch) ensures e.key.sequence <= m.lastSequence + |m.writing.batch.ops| {
    }
  }

  lemma {:induction false} SwitchKeeps(s: State)
    requires Valid(s) && IsRunning(s) && s.running.value.writing == Idle && s.running.value.imm == None
    ensures Valid(SwitchMemTable(s))
  {
    hide LogEntries, LogsBetween, LogsFrom, TableEntries, BatchEntries, SequencesUnique;
    var s' := SwitchMemTable(s);
    var d, d', m := s.disk, s'.disk, s.running.value;
    LogsSplit(d.logs, d.manifest.logNumber, m.logFile);
    NewLogAbove(d.logs, d.manifest.logNumber, m.nextFile);
    DurableRunning(s);
    DurableRunning(s');
  }

  lemma {:induction false} WriteTableKeeps(s: State)
    requires Valid(s) && IsRunning(s) && s.running.value.imm.Some? && s.running.value.pending == None
    ensures Valid(WriteTable(s))
  {
    var s' := WriteTable(s);
    TablesKept(s.disk.tables, s'.disk.tables, s.disk.manifest.tables);
  }

  /** The flush: imm_ is exactly what the logs that become obsolete hold. */
  lemma {:induction false} InstallTableKeeps(s: State)
    requires Valid(s) && IsRunning(s) && s.running.value.imm.Some? && s.running.value.pending.Some?
    ensures Valid(InstallTable(s))
  {
    var s' := InstallTable(s);
    InstallTableMemory(s);
    DurableRunning(s);
    DurableRunning(s');
    OneMoreTable(s.disk.tables, s.disk.manifest.tables, s.running.value.pending.value);
    assert s'.disk.Durable() == s.disk.Durable();
  }

  lemma {:induction false} InstallTableMemory(s: State)
    requires Valid(s) && IsRunning(s) && s.running.value.imm.Some? && s.running.value.pending.Some?
    ensures IsRunning(InstallTable(s)) && ValidDisk(InstallTable(s).disk)
  {
    var s' := InstallTable(s);
    OneMoreTable(s.disk.tables, s.disk.manifest.tables, s.running.value.pending.value);
    assert LogsBetween(s'.disk.logs, s.running.value.logFile, s.running.value.logFile) == {};
  }

  lemma {:induction false} OneMoreTable(tables: map<nat, set<Entry>>, live: set<nat>, t: nat)
    requires t in tables
    ensures TableEntries(tables, live + {t}) == TableEntries(tables, live) + tables[t]
  {
    forall e | e in tables[t] ensures e in TableEntries(tables, live + {t}) {
      assert t in live + {t};
    }
  }

  /** The live tables hold the same entries afterwards. */
  lemma {:induction false} RewriteSameEntries(s: State, gone: set<nat>, made: map<nat, set<Entry>>)
    requires Valid(s) && IsRunning(s) && gone <= s.disk.manifest.tables && SameContents(s.disk, gone, made)
    requires forall t :: t in made ==> t >= s.running.value.nextFile
    ensures var d' := RewriteTables(s, gone, made).disk;
            TableEntries(d'.tables, d'.manifest.tables) == TableEntries(s.disk.tables, s.disk.manifest.tables)
  {
    hide LogEntries, LogsBetween, LogsFrom, BatchEntries, Below, SequencesUnique;
    var d, d' := s.disk, RewriteTables(s, gone, made).disk;
    forall e ensures e in TableEntries(d'.tables, d'.manifest.tables) <==> e in TableEntries(d.tables, d.manifest.tables) {
      if e in TableEntries(d.tables, d.manifest.tables) {
        var t :| t in d.manifest.tables && t in d.tables && e in d.tables[t];
        if t in gone {
          assert e in TableEntries(made, made.Keys);
          var u :| u in made && e in made[u];
          assert u in d'.manifest.tables && d'.tables[u] == made[u];
        } else {
          assert d'.tables[t] == d.tables[t];
        }
      }
      if e in TableEntries(d'.tables, d'.manifest.tables) {
        var t :| t in d'.manifest.tables && t in d'.tables && e in d'.tables[t];
        if t in made {
          assert e in TableEntries(made, made.Keys);
        }
      }
    }
  }

  lemma {:induction false} RewriteKeeps(s: State, gone: set<nat>, made: map<nat, set<Entry>>)
    requires Valid(s) && IsRunning(s) && gone <= s.disk.manifest.tables && SameContents(s.disk, gone, made)
    requires forall t :: t in made ==> t >= s.running.value.nextFile
    ensures Valid(RewriteTables(s, gone, made))
  {
    hide LogEntries, LogsBetween, LogsFrom, BatchEntries, TableEntries;
    RewriteSameEntries(s, gone, made);
  }

  lemma {:induction false} UnpinKeeps(s: State, released: set<nat>)
    requires Valid(s) && IsRunning(s)
    ensures Valid(Unpin(s, released))
  {
  }

  lemma {:induction false} DeleteLogKeeps(s: State, n: nat)
    requires Valid(s) && IsRunning(s) && n < s.disk.manifest.logNumber
    ensures Valid(DeleteLog(s, n))
  {
    var s' := DeleteLog(s, n);
    var d, d', m := s.disk, s'.disk, s.running.value;
    LogsBetweenKept(d.logs, d'.logs, d.manifest.logNumber, m.logFile);
    DurableRunning(s);
    DurableRunning(s');
  }

  lemma {:induction false} DeleteTableKeeps(s: State, t: nat)
    requires Valid(s) && IsRunning(s) && t !in LiveTables(s.disk, s.running.value)
    ensures Valid(DeleteTable(s, t))
  {
    TablesKept(s.disk.tables, DeleteTable(s, t).disk.tables, s.disk.manifest.tables);
  }

  lemma {:induction false} CrashKeeps(s: State)
    requires Valid(s) && IsRunning(s)
    ensures Valid(Crash(s))
  {
  }

  lemma {:induction false} DebrisKeeps(s: State, made: map<nat, set<Entry>>, newLog: Option<nat>)
    requires Valid(s) && s.running == None
    requires forall t :: t in made ==> t >= s.disk.manifest.nextFile
    requires newLog.Some? ==> forall n :: n in s.disk.logs ==> n < newLog.value
    ensures Valid(RecoveryDebris(s, made, newLog))
  {
    var d, d' := s.disk, RecoveryDebris(s, made, newLog).disk;
    TablesKept(d.tables, d'.tables, d.manifest.tables);
    assert LogEntries([]) == {};
    forall e ensures e in LogsFrom(d'.logs, d.manifest.logNumber) <==> e in LogsFrom(d.logs, d.manifest.logNumber) {
      if e in LogsFrom(d.logs, d.manifest.logNumber) {
        var n :| n in d.logs && d.manifest.logNumber <= n && e in LogEntries(d.logs[n]);
        assert n in d'.logs && d'.logs[n] == d.logs[n];
      }
    }
  }

  lemma {:induction false} RecoverKeeps(s: State, r: State, made: map<nat, set<Entry>>)
    requires Valid(s) && s.running == None && Recovered(s, r, made)
    ensures Valid(r)
  {
    var d', m := r.disk, r.running.value;
    RecoveredTables(s, r, made);
    RecoveredLogs(s, r, made);
    assert ValidMemory(d', m);
    DurableRunning(r);
    assert d'.Durable() == s.disk.Durable();
  }

  /** The live tables after recovery: the old ones, plus the new ones if the manifest names them. */
  lemma {:induction false} RecoveredTables(s: State, r: State, made: map<nat, set<Entry>>)
    requires Valid(s) && s.running == None && Recovered(s, r, made)
    ensures TableEntries(r.disk.tables, r.disk.manifest.tables)
         == TableEntries(s.disk.tables, s.disk.manifest.tables) + TableEntries(made, made.Keys)
  {
    var d, f, d' := s.disk, s.disk.manifest, r.disk;
    TablesKept(d.tables, d'.tables, f.tables);
    forall e | e in TableEntries(made, made.Keys) ensures e in TableEntries(d'.tables, d'.manifest.tables) {
      var t :| t in made && e in made[t];
      assert t in d'.manifest.tables && d'.tables[t] == made[t];
    }
  }

  lemma {:induction false} RecoveredLogs(s: State, r: State, made: map<nat, set<Entry>>)
    requires Valid(s) && s.running == None && Recovered(s, r, made)
    ensures var m := r.running.value;
            && LogEntries(r.disk.logs[m.logFile]) == m.mem
            && LogsBetween(r.disk.logs, r.disk.manifest.logNumber, m.logFile) == {}
            && TableEntries(made, made.Keys) + m.mem == LogsFrom(s.disk.logs, s.disk.manifest.logNumber)
  {
    var d, f, d', m := s.disk, s.disk.manifest, r.disk, r.running.value;
    if m.logFile in d.logs {
      LogsSplit(d.logs, f.logNumber, m.logFile);
    } else {
      NewLogAbove(d.logs, f.logNumber, m.logFile);
    }
    if d'.manifest.logNumber == m.logFile {
      assert LogsBetween(d'.logs, m.logFile, m.logFile) == {};
    }
  }

  lemma {:induction false} StepKeeps(s: State, s': State)
    requires Valid(s) && Next(s, s')
    ensures Valid(s')
  {
    if s.running == None {
      if made :| Recovered(s, s', made) {
        RecoverKeeps(s, s', made);
      } else {
        var made: map<nat, set<Entry>>, newLog: Option<nat> :|
          && (forall t :: t in made ==> t >= s.disk.manifest.nextFile)
          && (newLog.Some? ==> forall n :: n in s.disk.logs ==> n < newLog.value)
          && s' == RecoveryDebris(s, made, newLog);
        DebrisKeeps(s, made, newLog);
      }
    } else {
      RunningStepKeeps(s, s');
    }
  }

  lemma {:induction false} RunningStepKeeps(s: State, s': State)
    requires Valid(s) && Next(s, s') && s.running.Some?
    ensures Valid(s')
  {
    var m := s.running.value;
    if s' == Crash(s) {
      CrashKeeps(s);
    } else if m.writing == Idle && exists ops :: s' == AppendToLog(s, ops) {
      var ops :| s' == AppendToLog(s, ops);
      AppendKeeps(s, ops);
    } else if m.writing.Logged? && s' == InsertIntoMemTable(s) {
      InsertKeeps(s);
    } else if m.writing.Inserted? && s' == Acknowledge(s) {
      AcknowledgeKeeps(s);
    } else if m.writing == Idle && m.imm == None && s' == SwitchMemTable(s) {
      SwitchKeeps(s);
    } else if m.imm.Some? && m.pending == None && s' == WriteTable(s) {
      WriteTableKeeps(s);
    } else if m.imm.Some? && m.pending.Some? && s' == InstallTable(s) {
      InstallTableKeeps(s);
    } else if exists released :: s' == Unpin(s, released) {
      var released :| s' == Unpin(s, released);
      UnpinKeeps(s, released);
    } else if exists n: nat :: n < s.disk.manifest.logNumber && s' == DeleteLog(s, n) {
      var n: nat :| n < s.disk.manifest.logNumber && s' == DeleteLog(s, n);
      DeleteLogKeeps(s, n);
    } else if exists t :: t !in LiveTables(s.disk, m) && s' == DeleteTable(s, t) {
      var t :| t !in LiveTables(s.disk, m) && s' == DeleteTable(s, t);
      DeleteTableKeeps(s, t);
    } else {
      var gone, made :| gone <= s.disk.manifest.tables && SameContents(s.disk, gone, made)
        && (forall t :: t in made ==> t >= m.nextFile) && s' == RewriteTables(s, gone, made);
      RewriteKeeps(s, gone, made);
    }
  }

  // ---------------------------------------------------------------------------------------------
  // Whole runs
  // ---------------------------------------------------------------------------------------------

  /** NewDB's disk, before the first recovery. */
  function NewDatabase(): State {
    State(Disk(map[], map[], Manifest(0, {}, 0, 2)), None, {}, {})
  }

  ghost predicate Run(run: seq<State>) {
    run != [] && run[0] == NewDatabase() && forall i :: 0 < i < |run| ==> Next(run[i - 1], run[i])
  }

  lemma {:induction false} RunKeeps(run: seq<State>, i: nat)
    requires Run(run) && i < |run|
    ensures Valid(run[i])
  {
    if i == 0 {
      assert TableEntries(map[], {}) == {} && LogsFrom(map[], 0) == {};
    } else {
      RunKeeps(run, i - 1);
      StepKeeps(run[i - 1], run[i]);
    }
  }

  /**
   In every state of every run: the manifest's tables and the logs numbered from its log number up
   hold exactly the acknowledged entries, those caught between log and acknowledgement by a crash,
   and those of the group being written. No acknowledged entry is ever lost, and a recovered
   LastSequence is at least every stored sequence number, so none is handed out again.
   */
  lemma {:induction false} CrashSafe(run: seq<State>, i: nat)
    requires Run(run) && i < |run|
    ensures var s := run[i];
            && s.disk.Durable() == s.acked + s.limbo + (if s.running.Some? then InLog(s.running.value.writing) else {})
            && SequencesUnique(s.disk.Durable())
            && (forall r, made :: s.running == None && Recovered(s, r, made) ==>
                  && r.disk.Durable() == s.disk.Durable()
                  && Below(s.disk.Durable(), r.running.value.lastSequence))
  {
    RunKeeps(run, i);
    var s := run[i];
    forall r, made | s.running == None && Recovered(s, r, made)
      ensures r.disk.Durable() == s.disk.Durable() && Below(s.disk.Durable(), r.running.value.lastSequence)
    {
      RecoverKeeps(s, r, made);
    }
  }

  /** While running, the memtables and the manifest's tables serve every acknowledged entry. */
  lemma {:induction false} AcknowledgedIsReadable(run: seq<State>, i: nat)
    requires Run(run) && i < |run| && run[i].running.Some?
    ensures var s, m := run[i], run[i].running.value;
            s.acked + s.limbo <= m.mem + ImmOf(m) + TableEntries(s.disk.tables, s.disk.manifest.tables)
  {
    RunKeeps(run, i);
    var s, m := run[i], run[i].running.value;
    DurableRunning(s);
    forall e | e in s.acked + s.limbo ensures !(m.writing.Logged? && e in BatchEntries(m.writing.batch)) {
    }
  }
}
