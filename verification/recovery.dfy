/**
 Recovery as the code runs it (DBImpl::RecoverLogFile, DBImpl::Recover, DB::Open), proved against
 the Recovered relation of the crash state machine.
 */
module Recovery {
  import opened Keys
  import opened Version
  import opened CrashSafety

  lemma {:induction false} MinimumExists(s: set<nat>) returns (least: nat)
    requires s != {}
    ensures least in s && forall k :: k in s ==> least <= k
  {
    var n :| n in s;
    var rest := s - {n};
    assert forall k :: k in s <==> k == n || k in rest;
    if rest == {} {
      least := n;
    } else {
      var m := MinimumExists(rest);
      least := if m < n then m else n;
    }
  }

  /** The log numbers from minLog up, in increasing order. */
  method SortedLogs(logs: map<nat, seq<Batch>>, minLog: nat) returns (sorted: seq<nat>)
    ensures forall n :: n in sorted <==> n in logs && minLog <= n
    ensures Increasing(sorted)
  {
    var rest := set n | n in logs.Keys && minLog <= n;
    sorted := [];
    while rest != {}
      invariant forall n :: n in logs && minLog <= n <==> n in sorted || n in rest
      invariant forall i, j :: 0 <= i < j < |sorted| ==> sorted[i] < sorted[j]
      invariant forall n, k :: n in sorted && k in rest ==> n < k
      decreases rest
    {
      ghost var least := MinimumExists(rest);
      var n :| n in rest && forall k :: k in rest ==> n <= k;
      assert forall i :: 0 <= i < |sorted| ==> sorted[i] in sorted;
      sorted := sorted + [n];
      rest := rest - {n};
    }
  }

  lemma {:induction false} BatchBelow(b: Batch, bound: nat)
    requires b.first + |b.ops| - 1 <= bound
    ensures Below(BatchEntries(b), bound)
  {
  }

  /** No memtable with the batches from one place on, up to another or before it, was full. */
  ghost predicate NeverFull(log: seq<Batch>, full: set<Entry> -> bool, from: nat, to: nat)
    requires from <= to <= |log|
  {
    forall j: nat :: from < j <= to ==> !full(LogEntries(log[from..j]))
  }

  /** A run of batches that ends where the memtable has become full. */
  ghost predicate FilledRun(log: seq<Batch>, full: set<Entry> -> bool, from: nat, to: nat) {
    from < to <= |log| && full(LogEntries(log[from..to])) && NeverFull(log, full, from, to - 1)
  }

  /** The tables numbered from nextFile on hold the runs between the stops. */
  ghost predicate RunsWritten(log: seq<Batch>, full: set<Entry> -> bool, stops: seq<nat>, nextFile: nat, made: map<nat, set<Entry>>) {
    && stops != [] && stops[0] == 0
    && forall k: nat :: k + 1 < |stops| ==> RunWritten(log, full, stops, nextFile, made, k)
  }

  ghost predicate RunWritten(log: seq<Batch>, full: set<Entry> -> bool, stops: seq<nat>, nextFile: nat, made: map<nat, set<Entry>>, k: nat)
    requires k + 1 < |stops|
  {
    && FilledRun(log, full, stops[k], stops[k + 1])
    && nextFile + k in made && made[nextFile + k] == LogEntries(log[stops[k]..stops[k + 1]])
  }

  lemma {:induction false} OneMoreRun(log: seq<Batch>, full: set<Entry> -> bool, stops: seq<nat>, nextFile: nat, made: map<nat, set<Entry>>, to: nat)
    requires RunsWritten(log, full, stops, nextFile, made)
    requires var from := stops[|stops| - 1]; FilledRun(log, full, from, to)
    ensures RunsWritten(log, full, stops + [to], nextFile,
                        made[nextFile + |stops| - 1 := LogEntries(log[stops[|stops| - 1]..to])])
  {
    var stops', made' := stops + [to], made[nextFile + |stops| - 1 := LogEntries(log[stops[|stops| - 1]..to])];
    hide FilledRun;
    forall k: nat | k + 1 < |stops'| ensures RunWritten(log, full, stops', nextFile, made', k) {
      if k + 1 < |stops| {
        assert RunWritten(log, full, stops, nextFile, made, k);
      }
    }
  }

  lemma {:induction false} RunsStay(log: seq<Batch>, full: set<Entry> -> bool, stops: seq<nat>, nextFile: nat, made: map<nat, set<Entry>>,
                                    made': map<nat, set<Entry>>)
    requires RunsWritten(log, full, stops, nextFile, made)
    requires forall t :: t in made ==> t in made' && made'[t] == made[t]
    ensures RunsWritten(log, full, stops, nextFile, made')
  {
    hide FilledRun;
    forall k: nat | k + 1 < |stops| ensures RunWritten(log, full, stops, nextFile, made', k) {
      assert RunWritten(log, full, stops, nextFile, made, k);
    }
  }

  /** The memtable takes one more batch. */
  lemma {:induction false} RunGrows(log: seq<Batch>, full: set<Entry> -> bool, from: nat, i: nat)
    requires from <= i < |log| && NeverFull(log, full, from, i)
    ensures LogEntries(log[from..i + 1]) == LogEntries(log[from..i]) + BatchEntries(log[i])
    ensures if full(LogEntries(log[from..i + 1])) then FilledRun(log, full, from, i + 1) else NeverFull(log, full, from, i + 1)
  {
    assert log[from..i + 1] == log[from..i] + [log[i]];
    AppendEntries(log[from..i], log[i]);
  }

  /**
   Replays one log. full says when a memtable with these entries has outgrown the write buffer and is
   written out: each table holds a run of batches up to where that happened (stops says where). What is left is
   written too, unless this is the last log and may be taken over as the current one: nothing of it was written.
   */
  method RecoverLogFile(log: seq<Batch>, last: bool, reuseLogs: bool, full: set<Entry> -> bool,
                        nextFile: nat, maxSequence: nat)
      returns (made: map<nat, set<Entry>>, reused: Option<set<Entry>>, nextFile': nat, maxSequence': nat, ghost stops: seq<nat>)
    requires forall b :: b in log ==> b.first >= 1
    ensures reused.Some? ==> last && reuseLogs && reused.value == LogEntries(log) && made == map[]
    ensures reused == None ==> TableEntries(made, made.Keys) == LogEntries(log)
    ensures nextFile <= nextFile' && forall t :: t in made <==> nextFile <= t < nextFile'
    ensures maxSequence <= maxSequence' && Below(LogEntries(log), maxSequence')
    ensures maxSequence' == maxSequence || exists b :: b in log && maxSequence' == b.first + |b.ops| - 1
    ensures RunsWritten(log, full, stops, nextFile, made)
    ensures var rest := stops[|stops| - 1];
            && rest <= |log| && NeverFull(log, full, rest, |log|)
            && (reused.Some? <==> reuseLogs && last && rest == 0)
            && nextFile' == nextFile + |stops| - 1 + (if rest < |log| && reused == None then 1 else 0)
            && (rest < |log| && reused == None ==> made[nextFile + |stops| - 1] == LogEntries(log[rest..]))
  {
    hide LogEntries, TableEntries, BatchEntries, Below, NeverFull, FilledRun, RunsWritten;
    made, nextFile', maxSequence', stops := map[], nextFile, maxSequence, [0];
    var mem: Option<set<Entry>> := None;
    var compactions := 0;
    NothingReplayed(log, full, nextFile, maxSequence, made);
    for i := 0 to |log|
      invariant |stops| == compactions + 1 && nextFile' == nextFile + compactions
      invariant forall t :: t in made <==> nextFile <= t < nextFile'
      invariant RunsWritten(log, full, stops, nextFile, made)
      invariant stops[compactions] <= i && (compactions > 0 ==> stops[compactions] > 0) && (compactions == 0 ==> stops[0] == 0)
      invariant NeverFull(log, full, stops[compactions], i)
      invariant mem == if stops[compactions] == i then None else Some(LogEntries(log[stops[compactions]..i]))
      invariant TableEntries(made, made.Keys) + (if mem.Some? then mem.value else {}) == LogEntries(log[..i])
      invariant compactions == 0 ==> made == map[]
      invariant maxSequence <= maxSequence' && Below(LogEntries(log[..i]), maxSequence')
      invariant maxSequence' == maxSequence || exists b :: b in log && maxSequence' == b.first + |b.ops| - 1
    {
      var batch := log[i];
      assert log[..i + 1] == log[..i] + [batch];
      AppendEntries(log[..i], batch);
      RunGrows(log, full, stops[compactions], i);
      NothingYet(log, i);
      if mem == None {
        mem := Some({});
      }
      mem := Some(mem.value + BatchEntries(batch));
      var lastSeq := batch.first + |batch.ops| - 1;
      ghost var before := maxSequence';
      if lastSeq > maxSequence' {
        maxSequence' := lastSeq;
      }
      BatchBelow(batch, maxSequence');
      BelowBoth(LogEntries(log[..i]), before, BatchEntries(batch), maxSequence');
      if full(mem.value) {
        OneMade(made, nextFile', mem.value);
        OneMoreRun(log, full, stops, nextFile, made, i + 1);
        NeverFullHere(log, full, i + 1);
        compactions := compactions + 1;
        made := made[nextFile' := mem.value];
        nextFile' := nextFile' + 1;
        mem := None;
        stops := stops + [i + 1];
      }
    }
    assert log[..|log|] == log;
    ghost var rest := stops[compactions];
    assert log[rest..|log|] == log[rest..];
    reused := None;
    if reuseLogs && last && compactions == 0 {
      NoTables(made);
      reused := Some(if mem.Some? then mem.value else {});
      mem := None;
    }
    if mem.Some? {
      OneMade(made, nextFile', mem.value);
      RunsStay(log, full, stops, nextFile, made, made[nextFile' := mem.value]);
      made := made[nextFile' := mem.value];
      nextFile' := nextFile' + 1;
    }
  }

  lemma {:induction false} NothingReplayed(log: seq<Batch>, full: set<Entry> -> bool, nextFile: nat, bound: nat, made: map<nat, set<Entry>>)
    requires made == map[]
    ensures RunsWritten(log, full, [0], nextFile, made) && NeverFull(log, full, 0, 0)
    ensures TableEntries(made, made.Keys) == LogEntries(log[..0]) == {} && Below(LogEntries(log[..0]), bound)
  {
  }

  lemma {:induction false} NeverFullHere(log: seq<Batch>, full: set<Entry> -> bool, i: nat)
    requires i <= |log|
    ensures NeverFull(log, full, i, i)
  {
  }

  lemma {:induction false} NothingYet(log: seq<Batch>, i: nat)
    requires i <= |log|
    ensures LogEntries(log[i..i]) == {}
  {
  }

  lemma {:induction false} BelowBoth(a: set<Entry>, before: nat, b: set<Entry>, bound: nat)
    requires Below(a, before) && Below(b, bound) && before <= bound
    ensures Below(a + b, bound)
  {
  }

  lemma {:induction false} NoTables(made: map<nat, set<Entry>>)
    requires made == map[]
    ensures TableEntries(made, made.Keys) == {}
  {
  }

  lemma {:induction false} OneMade(made: map<nat, set<Entry>>, t: nat, entries: set<Entry>)
    requires t !in made
    ensures TableEntries(made[t := entries], made[t := entries].Keys) == TableEntries(made, made.Keys) + entries
  {
    var made' := made[t := entries];
    forall e | e in TableEntries(made, made.Keys) ensures e in TableEntries(made', made'.Keys) {
      var u :| u in made && e in made[u];
      assert u in made' && made'[u] == made[u];
    }
    assert t in made';
  }

  lemma {:induction false} MadeUnion(a: map<nat, set<Entry>>, b: map<nat, set<Entry>>)
    requires a.Keys !! b.Keys
    ensures TableEntries(a + b, (a + b).Keys) == TableEntries(a, a.Keys) + TableEntries(b, b.Keys)
  {
    var c := a + b;
    forall e | e in TableEntries(a, a.Keys) + TableEntries(b, b.Keys) ensures e in TableEntries(c, c.Keys) {
      if e in TableEntries(a, a.Keys) {
        var u :| u in a && e in a[u];
        assert u in c && c[u] == a[u];
      } else {
        var u :| u in b && e in b[u];
        assert u in c && c[u] == b[u];
      }
    }
  }

  /** The logs replayed so far: everything from minLog up to the last of them. */
  lemma {:induction false} OneMoreLog(logs: map<nat, seq<Batch>>, minLog: nat, sorted: seq<nat>, i: nat)
    requires forall n :: n in sorted <==> n in logs && minLog <= n
    requires Increasing(sorted)
    requires i < |sorted|
    ensures LogsBetween(logs, minLog, sorted[i] + 1) == LogsBetween(logs, minLog, sorted[i]) + LogEntries(logs[sorted[i]])
    ensures LogsBetween(logs, minLog, sorted[i]) == if i == 0 then {} else LogsBetween(logs, minLog, sorted[i - 1] + 1)
    ensures i == |sorted| - 1 ==> LogsBetween(logs, minLog, sorted[i] + 1) == LogsFrom(logs, minLog)
  {
    var n := sorted[i];
    assert n in logs;
    forall k | k in logs && minLog <= k
      ensures (k < n ==> i > 0 && k <= sorted[i - 1]) && (i == |sorted| - 1 ==> k <= n)
    {
      var j :| 0 <= j < |sorted| && sorted[j] == k;
    }
  }

  /** The memtable never became full while the log was replayed. */
  ghost predicate NeverFilled(log: seq<Batch>, full: set<Entry> -> bool) {
    NeverFull(log, full, 0, |log|)
  }

  lemma {:induction false} NeverFilledIff(log: seq<Batch>, full: set<Entry> -> bool, nextFile: nat, stops: seq<nat>, made: map<nat, set<Entry>>)
    requires RunsWritten(log, full, stops, nextFile, made)
    requires stops[|stops| - 1] <= |log| && NeverFull(log, full, stops[|stops| - 1], |log|)
    ensures NeverFilled(log, full) <==> stops[|stops| - 1] == 0
  {
    hide LogEntries;
    if |stops| > 1 {
      assert RunWritten(log, full, stops, nextFile, made, 0);
      assert full(LogEntries(log[0..stops[1]]));
      LastStopIsLater(log, full, stops, nextFile, made, |stops| - 1);
    }
  }

  lemma {:induction false} LastStopIsLater(log: seq<Batch>, full: set<Entry> -> bool, stops: seq<nat>, nextFile: nat, made: map<nat, set<Entry>>, k: nat)
    requires RunsWritten(log, full, stops, nextFile, made) && 1 <= k < |stops|
    ensures 0 < stops[k] <= |log| && 0 < stops[1] <= |log|
  {
    assert RunWritten(log, full, stops, nextFile, made, 0);
    if k > 1 {
      LastStopIsLater(log, full, stops, nextFile, made, k - 1);
      assert RunWritten(log, full, stops, nextFile, made, k - 1);
    }
  }

  /** The sequence number of the last operation of a batch in a log that is still needed. */
  ghost predicate EndsAt(d: Disk, sequence: nat) {
    exists n, b :: n in d.logs && d.manifest.logNumber <= n && b in d.logs[n] && sequence == b.first + |b.ops| - 1
  }

  lemma {:induction false} Ends(d: Disk, n: nat, sequence: nat)
    requires n in d.logs && d.manifest.logNumber <= n
    requires exists b :: b in d.logs[n] && sequence == b.first + |b.ops| - 1
    ensures EndsAt(d, sequence)
  {
  }

  /** The loop of Recover over all logs the manifest still needs. */
  method ReplayLogs(d: Disk, logs: seq<nat>, reuseLogs: bool, full: set<Entry> -> bool, firstFile: nat)
      returns (made: map<nat, set<Entry>>, reused: Option<set<Entry>>, nextFile: nat, maxSequence: nat)
    requires ValidDisk(d) && Increasing(logs) && forall n :: n in logs <==> n in d.logs && d.manifest.logNumber <= n
    ensures firstFile <= nextFile && forall t :: t in made ==> firstFile <= t < nextFile
    ensures forall n :: n in logs ==> n < nextFile
    ensures nextFile == firstFile || nextFile - 1 in made || nextFile - 1 in logs
    ensures reused.Some? <==> reuseLogs && logs != [] && NeverFilled(d.logs[logs[|logs| - 1]], full)
    ensures maxSequence == 0 || EndsAt(d, maxSequence)
    ensures Replayed(d.logs, d.manifest.logNumber, logs, |logs|, made, reused, maxSequence)
  {
    hide Replayed, NeverFilled, EndsAt, TableEntries, LogEntries, LogsBetween, BatchEntries, Below, RunsWritten, NeverFull, FilledRun, Increasing;
    nextFile, maxSequence, reused, made := firstFile, 0, None, map[];
    NoneReplayed(d.logs, d.manifest.logNumber, logs, made);
    for i := 0 to |logs|
      invariant firstFile <= nextFile && forall t :: t in made ==> firstFile <= t < nextFile
      invariant forall k :: 0 <= k < i ==> logs[k] < nextFile
      invariant nextFile == firstFile || nextFile - 1 in made || nextFile - 1 in logs
      invariant reused.Some? <==> reuseLogs && i == |logs| > 0 && NeverFilled(d.logs[logs[|logs| - 1]], full)
      invariant maxSequence == 0 || EndsAt(d, maxSequence)
      invariant Replayed(d.logs, d.manifest.logNumber, logs, i, made, reused, maxSequence)
    {
      var madeHere;
      ghost var stops;
      ghost var before, nextFile0 := maxSequence, nextFile;
      assert logs[i] in d.logs;
      madeHere, reused, nextFile, maxSequence, stops :=
        RecoverLogFile(d.logs[logs[i]], i == |logs| - 1, reuseLogs, full, nextFile, maxSequence);
      if maxSequence != before {
        Ends(d, logs[i], maxSequence);
      }
      NeverFilledIff(d.logs[logs[i]], full, nextFile0, stops, madeHere);
      ReplayOne(d.logs, d.manifest.logNumber, logs, i, made, madeHere, reused, before, maxSequence);
      made := made + madeHere;
      nextFile := MarkFileNumberUsed(nextFile, logs[i]);
    }
  }

  lemma {:induction false} NoneReplayed(logs: map<nat, seq<Batch>>, minLog: nat, sorted: seq<nat>, made: map<nat, set<Entry>>)
    requires made == map[]
    ensures Replayed(logs, minLog, sorted, 0, made, None, 0)
  {
  }

  function MarkFileNumberUsed(nextFile: nat, number: nat): nat {
    if nextFile <= number then number + 1 else nextFile
  }

  ghost predicate Increasing(s: seq<nat>) {
    forall i, j :: 0 <= i < j < |s| ==> s[i] < s[j]
  }

  lemma {:induction false} LastIsLast(d: Disk, logs: seq<nat>)
    requires Increasing(logs) && logs != [] && forall n :: n in logs <==> n in d.logs && d.manifest.logNumber <= n
    ensures logs[|logs| - 1] in d.logs
    ensures forall n :: n in d.logs && IsLastLog(d, n) <==> n == logs[|logs| - 1]
  {
    var last := logs[|logs| - 1];
    assert last in logs;
    forall n | n in d.logs ensures n <= last {
      if n in logs {
        var i :| 0 <= i < |logs| && logs[i] == n;
      }
    }
  }

  ghost predicate IsLastLog(d: Disk, n: nat)
    requires n in d.logs
  {
    d.manifest.logNumber <= n && forall k :: k in d.logs ==> k <= n
  }

  lemma {:induction false} BelowMore(entries: set<Entry>, bound: nat)
    requires Below(entries, bound)
    ensures forall more: nat :: bound <= more ==> Below(entries, more)
  {
  }

  /** Recover, then the part of DB::Open that makes a new log and commits the manifest. */
  method RecoverDatabase(s: State, reuseLogs: bool, reuseManifest: bool, full: set<Entry> -> bool)
      returns (r: State, made: map<nat, set<Entry>>)
    requires Valid(s) && s.running == None
    ensures Recovered(s, r, made)
    // The last log goes on exactly when logs are reused and its memtable never became full.
    ensures r.running.value.logFile in s.disk.logs <==>
              reuseLogs && exists n :: n in s.disk.logs && IsLastLog(s.disk, n) && NeverFilled(s.disk.logs[n], full)
    // The manifest stays exactly when it can be reused and nothing was written.
    ensures r.disk.manifest == if reuseManifest && made == map[] then s.disk.manifest else
              Manifest(r.running.value.logFile, s.disk.manifest.tables + made.Keys, r.running.value.lastSequence, r.running.value.nextFile)
    // File numbers: the manifest file takes the first, then every log and table one more, and none is passed over.
    ensures forall t :: t in made ==> s.disk.manifest.nextFile < t
    ensures var next := r.running.value.nextFile;
            && s.disk.manifest.nextFile < next
            && (next - 1 == s.disk.manifest.nextFile || next - 1 == s.disk.manifest.logNumber
                || (next - 1 in s.disk.logs && s.disk.manifest.logNumber <= next - 1)
                || next - 1 in made || next - 1 == r.running.value.logFile)
    ensures r.running.value.logFile !in s.disk.logs ==> r.running.value.nextFile == r.running.value.logFile + 1
    ensures r.running.value.lastSequence == s.disk.manifest.lastSequence || EndsAt(s.disk, r.running.value.lastSequence)
  {
    hide NeverFilled, EndsAt, Replayed, Recovered, Increasing, IsLastLog, Valid;
    ValidOnDisk(s);
    var d, f := s.disk, s.disk.manifest;
    var logs: seq<nat> := SortedLogs(d.logs, f.logNumber);
    var reused, nextFile, maxSequence;
    made, reused, nextFile, maxSequence :=
      ReplayLogs(d, logs, reuseLogs, full, MarkFileNumberUsed(f.nextFile + 1, f.logNumber));
    ghost var afterReplay := nextFile;
    var lastSequence := if f.lastSequence < maxSequence then maxSequence else f.lastSequence;
    var logFile, mem, diskLogs;
    if reused.Some? {
      logFile, mem, diskLogs := logs[|logs| - 1], reused.value, d.logs;
    } else {
      logFile, mem := nextFile, {};
      diskLogs := d.logs[logFile := []];
      nextFile := nextFile + 1;
    }
    var manifest := if made != map[] || !reuseManifest
      then Manifest(logFile, f.tables + made.Keys, lastSequence, nextFile) else f;
    r := State(Disk(diskLogs, d.tables + made, manifest),
               Some(Memory(mem, None, logFile, lastSequence, nextFile, None, {}, Idle)), s.acked, s.limbo);
    OpenedIsRecovered(s, r, made, logs, reused, afterReplay, maxSequence, reuseManifest);
    OpenedNumbers(s, r, made, logs, reused, afterReplay, maxSequence, reuseManifest);
    OpenedLog(s, r, made, logs, reused, afterReplay, maxSequence, reuseManifest, reuseLogs, full);
  }

  lemma {:induction false} ValidOnDisk(s: State)
    requires Valid(s)
    ensures ValidDisk(s.disk)
  {
  }

  /** What Open makes of the replayed logs: the last one goes on, or there is a new one; the manifest stays, or is written. */
  ghost predicate OpenedAs(s: State, r: State, made: map<nat, set<Entry>>, logs: seq<nat>, reused: Option<set<Entry>>, nextFile: nat,
                           maxSequence: nat, reuseManifest: bool)
    requires reused.Some? ==> logs != []
  {
    var d, f := s.disk, s.disk.manifest;
    var logFile, next := if reused.Some? then logs[|logs| - 1] else nextFile, if reused.Some? then nextFile else nextFile + 1;
    var lastSequence := if f.lastSequence < maxSequence then maxSequence else f.lastSequence;
    && r.acked == s.acked && r.limbo == s.limbo
    && r.disk.logs == (if reused.Some? then d.logs else d.logs[logFile := []]) && r.disk.tables == d.tables + made
    && r.disk.manifest == (if made == map[] && reuseManifest then f else Manifest(logFile, f.tables + made.Keys, lastSequence, next))
    && r.running == Some(Memory(if reused.Some? then reused.value else {}, None, logFile, lastSequence, next, None, {}, Idle))
  }

  /** The logs that are needed, and numbers above all that are taken. */
  ghost predicate Numbered(d: Disk, logs: seq<nat>, made: map<nat, set<Entry>>, nextFile: nat) {
    var f := d.manifest;
    && Increasing(logs) && (forall n :: n in logs <==> n in d.logs && f.logNumber <= n)
    && f.nextFile < nextFile && f.logNumber < nextFile
    && (forall t :: t in made ==> f.nextFile < t < nextFile)
    && (forall n :: n in logs ==> n < nextFile)
    && (nextFile - 1 == f.nextFile || nextFile - 1 == f.logNumber || nextFile - 1 in made || nextFile - 1 in logs)
  }

  lemma {:induction false} OpenedIsRecovered(s: State, r: State, made: map<nat, set<Entry>>, logs: seq<nat>, reused: Option<set<Entry>>,
                                             nextFile: nat, maxSequence: nat, reuseManifest: bool)
    requires Numbered(s.disk, logs, made, nextFile) && (reused.Some? ==> logs != [])
    requires Replayed(s.disk.logs, s.disk.manifest.logNumber, logs, |logs|, made, reused, maxSequence)
    requires OpenedAs(s, r, made, logs, reused, nextFile, maxSequence, reuseManifest)
    ensures Recovered(s, r, made)
  {
    hide TableEntries, LogEntries, LogsBetween, LogsFrom, BatchEntries, Below, Increasing;
    var d, f := s.disk, s.disk.manifest;
    AllReplayed(d.logs, f.logNumber, logs, made, reused, maxSequence);
    BelowMore(LogsFrom(d.logs, f.logNumber), maxSequence);
    assert forall n :: n in d.logs ==> n < f.logNumber || n in logs;
    if logs != [] {
      LastIsLast(d, logs);
    }
  }

  lemma {:induction false} OpenedNumbers(s: State, r: State, made: map<nat, set<Entry>>, logs: seq<nat>, reused: Option<set<Entry>>,
                                         nextFile: nat, maxSequence: nat, reuseManifest: bool)
    requires Numbered(s.disk, logs, made, nextFile) && (reused.Some? ==> logs != [])
    requires maxSequence == 0 || EndsAt(s.disk, maxSequence)
    requires OpenedAs(s, r, made, logs, reused, nextFile, maxSequence, reuseManifest)
    ensures r.running.Some?
    ensures r.disk.manifest == if reuseManifest && made == map[] then s.disk.manifest else
              Manifest(r.running.value.logFile, s.disk.manifest.tables + made.Keys, r.running.value.lastSequence, r.running.value.nextFile)
    ensures forall t :: t in made ==> s.disk.manifest.nextFile < t
    ensures var next := r.running.value.nextFile;
            && s.disk.manifest.nextFile < next
            && (next - 1 == s.disk.manifest.nextFile || next - 1 == s.disk.manifest.logNumber
                || (next - 1 in s.disk.logs && s.disk.manifest.logNumber <= next - 1)
                || next - 1 in made || next - 1 == r.running.value.logFile)
    ensures r.running.value.logFile !in s.disk.logs ==> r.running.value.nextFile == r.running.value.logFile + 1
    ensures r.running.value.lastSequence == s.disk.manifest.lastSequence || EndsAt(s.disk, r.running.value.lastSequence)
  {
    hide EndsAt, Increasing;
    if logs != [] {
      assert logs[|logs| - 1] in logs;
    }
  }

  lemma {:induction false} OpenedLog(s: State, r: State, made: map<nat, set<Entry>>, logs: seq<nat>, reused: Option<set<Entry>>,
                                     nextFile: nat, maxSequence: nat, reuseManifest: bool, reuseLogs: bool, full: set<Entry> -> bool)
    requires Numbered(s.disk, logs, made, nextFile)
    requires logs != [] ==> logs[|logs| - 1] in s.disk.logs
    requires reused.Some? <==> reuseLogs && logs != [] && NeverFilled(s.disk.logs[logs[|logs| - 1]], full)
    requires OpenedAs(s, r, made, logs, reused, nextFile, maxSequence, reuseManifest)
    ensures r.running.Some?
    ensures r.running.value.logFile in s.disk.logs <==>
              reuseLogs && exists n :: n in s.disk.logs && IsLastLog(s.disk, n) && NeverFilled(s.disk.logs[n], full)
  {
    hide NeverFilled, Increasing;
    assert forall n :: n in s.disk.logs ==> n < s.disk.manifest.logNumber || n in logs;
    if logs != [] {
      LastIsLast(s.disk, logs);
    }
  }

  /** made and the reused memtable hold what the first i logs held. */
  ghost predicate Replayed(logs: map<nat, seq<Batch>>, minLog: nat, sorted: seq<nat>, i: nat,
                           made: map<nat, set<Entry>>, reused: Option<set<Entry>>, maxSequence: nat)
    requires i <= |sorted|
  {
    var upTo := if i == 0 then {} else LogsBetween(logs, minLog, sorted[i - 1] + 1);
    && Below(upTo, maxSequence)
    && (reused == None ==> TableEntries(made, made.Keys) == upTo)
    && (reused.Some? ==>
          && i > 0 && sorted[i - 1] in logs && reused.value == LogEntries(logs[sorted[i - 1]])
          && TableEntries(made, made.Keys) == LogsBetween(logs, minLog, sorted[i - 1]))
  }

  lemma {:induction false} ReplayOne(logs: map<nat, seq<Batch>>, minLog: nat, sorted: seq<nat>, i: nat, made: map<nat, set<Entry>>,
                  madeHere: map<nat, set<Entry>>, reused: Option<set<Entry>>, before: nat, maxSequence: nat)
    requires forall n :: n in sorted <==> n in logs && minLog <= n
    requires Increasing(sorted)
    requires i < |sorted| && sorted[i] in logs && made.Keys !! madeHere.Keys
    requires before <= maxSequence && Replayed(logs, minLog, sorted, i, made, None, before)
    requires Below(LogEntries(logs[sorted[i]]), maxSequence)
    requires reused.Some? ==> reused.value == LogEntries(logs[sorted[i]]) && madeHere == map[]
    requires reused == None ==> TableEntries(madeHere, madeHere.Keys) == LogEntries(logs[sorted[i]])
    ensures Replayed(logs, minLog, sorted, i + 1, made + madeHere, reused, maxSequence)
  {
    OneMoreLog(logs, minLog, sorted, i);
    MadeUnion(made, madeHere);
    if reused.Some? {
      assert made + madeHere == made;
    }
  }

  lemma {:induction false} AllReplayed(logs: map<nat, seq<Batch>>, minLog: nat, sorted: seq<nat>, made: map<nat, set<Entry>>,
                    reused: Option<set<Entry>>, maxSequence: nat)
    requires forall n :: n in sorted <==> n in logs && minLog <= n
    requires Increasing(sorted)
    requires Replayed(logs, minLog, sorted, |sorted|, made, reused, maxSequence)
    ensures Below(LogsFrom(logs, minLog), maxSequence)
    ensures reused == None ==> TableEntries(made, made.Keys) == LogsFrom(logs, minLog)
    ensures reused.Some? ==> sorted != [] && forall n :: n in sorted ==> n <= sorted[|sorted| - 1]
  {
    if sorted != [] {
      OneMoreLog(logs, minLog, sorted, |sorted| - 1);
    }
    forall n | n in sorted ensures sorted != [] && n <= sorted[|sorted| - 1] {
      var k :| 0 <= k < |sorted| && sorted[k] == n;
    }
    if sorted == [] {
      forall e ensures e !in LogsFrom(logs, minLog) {
        assert forall n :: n in logs && minLog <= n ==> n in sorted;
      }
    }
  }
}
