/** Group commit (DBImpl::Write and BuildBatchGroup in leveldb/db/db_impl.cc): the queue of writers, the
    leader that logs and applies a group of batches, and what every interleaving keeps. */
module GroupCommit {
  import opened Options
  import opened Runs
  import opened Versions
  import opened Store
  import opened DbImpl

  /** A call of Write waiting in the queue; no batch means a forced memtable switch. */
  datatype Writer = Writer(batch: Option<seq<Update>>, byteSize: nat, sync: bool)

  function UpdatesOf(w: Writer): seq<Update> {
    if w.batch.Some? then w.batch.value else []
  }

  /** All updates of the writers, in order. */
  function Updates(writers: seq<Writer>): seq<Update> {
    if writers == [] then [] else Updates(writers[..|writers|-1]) + UpdatesOf(writers[|writers|-1])
  }

  lemma {:induction false} UpdatesJoin(a: seq<Writer>, b: seq<Writer>)
    ensures Updates(a + b) == Updates(a) + Updates(b)
  {
    var c := a + b;
    if b == [] {
      assert c == a;
    } else {
      var n := |b| - 1;
      assert c[..|c|-1] == a + b[..n] && c[|c|-1] == b[n];
      UpdatesJoin(a, b[..n]);
      assert Updates(c) == Updates(a + b[..n]) + UpdatesOf(b[n]);
      hide Updates, UpdatesOf;
    }
  }

  lemma UpdatesUpTo(writers: seq<Writer>, i: nat, j: nat)
    requires i <= j <= |writers|
    ensures Updates(writers[..j]) == Updates(writers[..i]) + Updates(writers[i..j])
  {
    assert writers[..j] == writers[..i] + writers[i..j];
    UpdatesJoin(writers[..i], writers[i..j]);
  }

  // ---------------------------------------------------------------- choosing the group

  const SMALL_WRITE := 131072
  const MAX_GROUP_BYTES := 1048576

  /** Bytes of the batches of the first n writers. */
  function GroupBytes(queue: seq<Writer>, n: nat): nat
    requires n <= |queue|
  {
    if n == 0 then 0 else GroupBytes(queue, n - 1) + (if queue[n-1].batch.Some? then queue[n-1].byteSize else 0)
  }

  /** The leader may take writer i along, if it takes all before it: at most 1 MB, and not much more than 128 KB
      if the leader itself is small. */
  ghost predicate MayCarry(queue: seq<Writer>, i: nat)
    requires 0 < i < |queue|
  {
    && (queue[i].sync ==> queue[0].sync)
    && (queue[i].batch.Some? ==>
          GroupBytes(queue, i + 1) <= if queue[0].byteSize <= 131072 then queue[0].byteSize + 131072 else 1048576)
  }

  /** The first n writers are the group that the front writer leads. */
  ghost predicate IsGroup(queue: seq<Writer>, n: nat) {
    && 0 < n <= |queue|
    && (forall i :: 0 < i < n ==> MayCarry(queue, i))
    && (n < |queue| ==> !MayCarry(queue, n))
  }

  lemma FirstUpdates(queue: seq<Writer>)
    requires queue != []
    ensures Updates(queue[..1]) == UpdatesOf(queue[0])
  {
    assert queue[..1] == [queue[0]] && [queue[0]][..0] == [];
  }

  lemma NextUpdates(queue: seq<Writer>, n: nat)
    requires n < |queue|
    ensures Updates(queue[..n+1]) == Updates(queue[..n]) + UpdatesOf(queue[n])
  {
    assert queue[..n+1][..n] == queue[..n];
  }

  method BuildBatchGroup(queue: seq<Writer>) returns (updates: seq<Update>, n: nat)
    requires queue != [] && queue[0].batch.Some?
    ensures IsGroup(queue, n) && updates == Updates(queue[..n])
  {
    hide Updates;
    FirstUpdates(queue);
    var first := queue[0];
    var size := first.byteSize;
    var maxSize := MAX_GROUP_BYTES;
    if size <= SMALL_WRITE {
      maxSize := size + SMALL_WRITE;
    }
    updates := first.batch.value;
    n := 1;
    while n < |queue|
      invariant 0 < n <= |queue| && maxSize == (if first.byteSize <= 131072 then first.byteSize + 131072 else 1048576)
      invariant size == GroupBytes(queue, n) && updates == Updates(queue[..n])
      invariant forall i :: 0 < i < n ==> MayCarry(queue, i)
    {
      var w := queue[n];
      if w.sync && !first.sync {
        break;
      }
      NextUpdates(queue, n);
      if w.batch.Some? {
        if size + w.byteSize > maxSize {
          break;
        }
        size := size + w.byteSize;
        updates := updates + w.batch.value;
      }
      n := n + 1;
    }
  }

  // ---------------------------------------------------------------- the state machine

  /** The group being written: its number of writers and how far the leader is. */
  datatype Group = Group(count: nat, updates: seq<Update>, logged: bool, inserted: nat)

  /** One record of a write-ahead log file. It covers the writers from..to. */
  datatype LogRecord = LogRecord(file: nat, sequence: nat, updates: seq<Update>, synced: bool, from: nat, to: nat)

  /** `arrived` holds every writer that ever queued, in order; the queue is arrived[done..]. */
  datatype Commit = Commit(st: Store, arrived: seq<Writer>, done: nat, group: Option<Group>,
                           log: seq<LogRecord>, logFile: nat)

  datatype CommitAction =
    | Arrive(w: Writer)          // push_back under the mutex
    | Room                       // MakeRoomForWrite switches the memtable for a leader
    | Lead                       // BuildBatchGroup and SetSequence
    | AddRecord                  // log_->AddRecord and Sync, outside the mutex
    | Insert                     // one update of InsertInto, outside the mutex
    | Finish                     // SetLastSequence, then pop the group
    | Force                      // a writer without a batch
    | Background(a: Action)      // everything else the store does

  /** Sync makes every record of the current file durable. */
  function SyncFile(log: seq<LogRecord>, file: nat): (r: seq<LogRecord>)
    ensures |r| == |log|
    ensures forall i :: 0 <= i < |r| ==> r[i] == if log[i].file == file then log[i].(synced := true) else log[i]
  {
    if log == [] then []
    else
      var n := |log| - 1;
      SyncFile(log[..n], file) + [if log[n].file == file then log[n].(synced := true) else log[n]]
  }

  /** The log after the record of group g, led by the first of the writers from `done` on. */
  function LogAfter(log: seq<LogRecord>, arrived: seq<Writer>, done: nat, g: Group, last: nat, file: nat): seq<LogRecord>
    requires done < |arrived|
  {
    var log' := log + [LogRecord(file, last + 1, g.updates, false, done, done + g.count)];
    if arrived[done].sync then SyncFile(log', file) else log'
  }

  ghost predicate CommitStep(s: Commit, a: CommitAction, s': Commit) {
    match a
    case Arrive(w) => s' == s.(arrived := s.arrived + [w])
    case Room =>
      && s.group.None? && s.done < |s.arrived| && Step(s.st, SwitchMemTable, s'.st)
      && s' == s.(st := s'.st, logFile := s.logFile + 1)
    case Lead =>
      && s.group.None? && s.done < |s.arrived| && s.arrived[s.done].batch.Some? && s'.group.Some?
      && var g := s'.group.value;
         && IsGroup(s.arrived[s.done..], g.count)
         && g == Group(g.count, Updates(s.arrived[s.done..][..g.count]), false, 0)
         && s' == s.(group := Some(g))
    case AddRecord =>
      && s.group.Some? && !s.group.value.logged && s.done < |s.arrived|
      && var g := s.group.value;
         s' == s.(group := Some(g.(logged := true)),
                  log := LogAfter(s.log, s.arrived, s.done, g, s.st.lastSequence, s.logFile))
    case Insert =>
      && s.group.Some? && s.group.value.logged && s.group.value.inserted < |s.group.value.updates|
      && var g := s.group.value;
         && Step(s.st, AppendUpdate(g.updates[g.inserted]), s'.st)
         && s' == s.(st := s'.st, group := Some(g.(inserted := g.inserted + 1)))
    case Finish =>
      && s.group.Some? && s.group.value.logged && s.group.value.inserted == |s.group.value.updates|
      && Step(s.st, Publish, s'.st)
      && s' == s.(st := s'.st, group := None, done := s.done + s.group.value.count)
    case Force =>
      && s.group.None? && s.done < |s.arrived| && s.arrived[s.done].batch.None?
      && Step(s.st, SwitchMemTable, s'.st)
      && s' == s.(st := s'.st, logFile := s.logFile + 1, done := s.done + 1)
    case Background(b) =>
      && !b.AppendUpdate? && b != Publish && b != SwitchMemTable
      && Step(s.st, b, s'.st) && s' == s.(st := s'.st)
  }

  // ---------------------------------------------------------------- the invariant

  /** How many writers the log covers. */
  function Logged(s: Commit): nat {
    if s.group.Some? && s.group.value.logged then s.done + s.group.value.count else s.done
  }

  /** What is visible is exactly the writes of the writers that are done, in queue order. The group is
      the front of the queue, led by its first writer; its first updates are in the memtable but not
      visible yet. */
  ghost predicate QueueOK(history: History, last: nat, arrived: seq<Writer>, done: nat, group: Option<Group>) {
    && done <= |arrived| && last <= |history| && history[..last] == Updates(arrived[..done])
    && match group
       case None => last == |history|
       case Some(g) =>
         && 0 < g.count <= |arrived| - done
         && g.updates == Updates(arrived[done..done+g.count]) && g.inserted <= |g.updates|
         && (g.inserted > 0 ==> g.logged)
         && history == history[..last] + g.updates[..g.inserted]
         && arrived[done].batch.Some?
         && (forall i :: done <= i < done + g.count && arrived[i].sync ==> arrived[done].sync)
  }

  /** Replaying a log. */
  function Replay(log: seq<LogRecord>): History {
    if log == [] then [] else Replay(log[..|log|-1]) + log[|log|-1].updates
  }

  /** The record holds the batches of its writers, at the right sequence number, and is synced if one
      of them asked for it. */
  ghost predicate RecordOK(log: seq<LogRecord>, arrived: seq<Writer>, k: nat)
    requires k < |log|
  {
    var r := log[k];
    && r.from < r.to <= |arrived|
    && r.updates == Updates(arrived[r.from..r.to])
    && Replay(log[..k]) == Updates(arrived[..r.from])
    && r.sequence == |Replay(log[..k])| + 1
    && (forall i :: r.from <= i < r.to && arrived[i].sync ==> r.synced)
  }

  ghost predicate InLog(log: seq<LogRecord>, i: nat) {
    exists k :: 0 <= k < |log| && log[k].from <= i < log[k].to
  }

  /** The log holds the batches of the first n writers, in order, each in one record. */
  ghost predicate LogOK(log: seq<LogRecord>, arrived: seq<Writer>, n: nat) {
    && n <= |arrived|
    && (forall k :: 0 <= k < |log| ==> RecordOK(log, arrived, k) && log[k].to <= n)
    && (forall k :: 0 < k < |log| ==> log[k-1].to <= log[k].from)
    && Replay(log) == Updates(arrived[..n])
    && (forall i :: 0 <= i < n && arrived[i].batch.Some? ==> InLog(log, i))
  }

  ghost predicate CommitOK(s: Commit) {
    && QueueOK(s.st.history, s.st.lastSequence, s.arrived, s.done, s.group)
    && LogOK(s.log, s.arrived, Logged(s))
  }

  // ---------------------------------------------------------------- every step keeps it

  lemma ArriveKeepsQueue(history: History, last: nat, arrived: seq<Writer>, done: nat, group: Option<Group>, w: Writer)
    requires QueueOK(history, last, arrived, done, group)
    ensures QueueOK(history, last, arrived + [w], done, group)
  {
    assert (arrived + [w])[..done] == arrived[..done];
    if group.Some? {
      var n := group.value.count;
      assert (arrived + [w])[done..done+n] == arrived[done..done+n];
    }
  }

  /** A record stays right when more writers arrive, or when it or others are synced. */
  lemma RecordStaysOK(log: seq<LogRecord>, arrived: seq<Writer>, k: nat, log': seq<LogRecord>, arrived': seq<Writer>)
    requires k < |log| && RecordOK(log, arrived, k)
    requires arrived <= arrived' && k < |log'| && Replay(log'[..k]) == Replay(log[..k])
    requires log'[k] == log[k].(synced := log'[k].synced) && (log[k].synced ==> log'[k].synced)
    ensures RecordOK(log', arrived', k)
  {
    var r := log[k];
    assert arrived'[r.from..r.to] == arrived[r.from..r.to] && arrived'[..r.from] == arrived[..r.from];
  }

  lemma ArriveKeepsLog(log: seq<LogRecord>, arrived: seq<Writer>, n: nat, w: Writer)
    requires LogOK(log, arrived, n)
    ensures LogOK(log, arrived + [w], n)
  {
    assert (arrived + [w])[..n] == arrived[..n];
    hide RecordOK;
    forall k | 0 <= k < |log| ensures RecordOK(log, arrived + [w], k) {
      RecordStaysOK(log, arrived, k, log, arrived + [w]);
    }
  }

  lemma LeadKeepsQueue(history: History, last: nat, arrived: seq<Writer>, done: nat, n: nat)
    requires QueueOK(history, last, arrived, done, None) && done < |arrived| && arrived[done].batch.Some?
    requires IsGroup(arrived[done..], n)
    ensures QueueOK(history, last, arrived, done, Some(Group(n, Updates(arrived[done..][..n]), false, 0)))
  {
    var queue := arrived[done..];
    assert queue[..n] == arrived[done..done+n];
    forall i | done <= i < done + n && arrived[i].sync ensures arrived[done].sync {
      if i > done { assert MayCarry(queue, i - done); }
    }
    assert history[..last] == history && Updates(queue[..n])[..0] == [];
  }

  /** Syncing changes no update. */
  lemma {:induction false} ReplaySame(a: seq<LogRecord>, b: seq<LogRecord>)
    requires |a| == |b| && forall i :: 0 <= i < |a| ==> a[i].updates == b[i].updates
    ensures Replay(a) == Replay(b)
  {
    if a != [] { ReplaySame(a[..|a|-1], b[..|b|-1]); }
  }

  lemma SyncKeepsLog(log: seq<LogRecord>, arrived: seq<Writer>, n: nat, file: nat)
    requires LogOK(log, arrived, n)
    ensures LogOK(SyncFile(log, file), arrived, n)
  {
    var log' := SyncFile(log, file);
    hide SyncFile, RecordOK;
    ReplaySame(log, log');
    forall k | 0 <= k < |log| ensures RecordOK(log', arrived, k) && log'[k].to <= n {
      ReplaySame(log'[..k], log[..k]);
      RecordStaysOK(log, arrived, k, log', arrived);
    }
    forall i | 0 <= i < n && arrived[i].batch.Some? ensures InLog(log', i) {
      assert InLog(log, i);
      var k :| 0 <= k < |log| && log[k].from <= i < log[k].to;
      assert log'[k].from <= i < log'[k].to;
    }
  }

  /** A new record at the end, for the writers from..to; it is synced if one of them asks for it. */
  lemma AppendKeepsLog(log: seq<LogRecord>, arrived: seq<Writer>, r: LogRecord)
    requires LogOK(log, arrived, r.from) && r.from < r.to <= |arrived|
    requires r.updates == Updates(arrived[r.from..r.to]) && r.sequence == |Updates(arrived[..r.from])| + 1
    requires forall i :: r.from <= i < r.to && arrived[i].sync ==> r.synced
    ensures LogOK(log + [r], arrived, r.to)
  {
    var log', m := log + [r], |log|;
    hide RecordOK, InLog, Updates;
    UpdatesUpTo(arrived, r.from, r.to);
    assert log'[..m] == log;
    NewRecordOK(log, arrived, r);
    OldRecordsStayOK(log, arrived, r);
    forall i | 0 <= i < r.to && arrived[i].batch.Some? ensures InLog(log', i) {
      InLogGrows(log, r, i);
    }
  }

  lemma NewRecordOK(log: seq<LogRecord>, arrived: seq<Writer>, r: LogRecord)
    requires r.from < r.to <= |arrived| && Replay(log) == Updates(arrived[..r.from])
    requires r.updates == Updates(arrived[r.from..r.to]) && r.sequence == |Updates(arrived[..r.from])| + 1
    requires forall i :: r.from <= i < r.to && arrived[i].sync ==> r.synced
    ensures RecordOK(log + [r], arrived, |log|)
  {
    assert (log + [r])[..|log|] == log;
  }

  lemma OldRecordsStayOK(log: seq<LogRecord>, arrived: seq<Writer>, r: LogRecord)
    requires forall k :: 0 <= k < |log| ==> RecordOK(log, arrived, k)
    ensures forall k :: 0 <= k < |log| ==> RecordOK(log + [r], arrived, k)
  {
    hide RecordOK;
    forall k | 0 <= k < |log| ensures RecordOK(log + [r], arrived, k) {
      assert (log + [r])[..k] == log[..k];
      RecordStaysOK(log, arrived, k, log + [r], arrived);
    }
  }

  lemma InLogGrows(log: seq<LogRecord>, r: LogRecord, i: nat)
    ensures InLog(log, i) || r.from <= i < r.to ==> InLog(log + [r], i)
  {
    if InLog(log, i) {
      var k :| 0 <= k < |log| && log[k].from <= i < log[k].to;
      assert (log + [r])[k].from <= i < (log + [r])[k].to;
    } else if r.from <= i < r.to {
      assert (log + [r])[|log|].from <= i < (log + [r])[|log|].to;
    }
  }

  lemma GroupFacts(history: History, last: nat, arrived: seq<Writer>, done: nat, g: Group)
    requires QueueOK(history, last, arrived, done, Some(g))
    ensures 0 < g.count <= |arrived| - done && g.updates == Updates(arrived[done..done+g.count])
    ensures |Updates(arrived[..done])| == last
    ensures forall i :: done <= i < done + g.count && arrived[i].sync ==> arrived[done].sync
  {
  }

  lemma AddRecordKeepsLog(history: History, last: nat, arrived: seq<Writer>, done: nat, g: Group,
                          log: seq<LogRecord>, file: nat)
    requires QueueOK(history, last, arrived, done, Some(g)) && LogOK(log, arrived, done)
    ensures done < |arrived| && LogOK(LogAfter(log, arrived, done, g, last, file), arrived, done + g.count)
  {
    hide RecordOK, LogOK, SyncFile, QueueOK, Updates;
    GroupFacts(history, last, arrived, done, g);
    var r := LogRecord(file, last + 1, g.updates, false, done, done + g.count);
    if arrived[done].sync {
      // The new record is synced together with the rest of its file
      SyncedLast(log, r, file);
      SyncKeepsLog(log, arrived, done, file);
      AppendKeepsLog(SyncFile(log, file), arrived, r.(synced := true));
    } else {
      AppendKeepsLog(log, arrived, r);
    }
  }

  lemma SyncedLast(log: seq<LogRecord>, r: LogRecord, file: nat)
    requires r.file == file
    ensures SyncFile(log + [r], file) == SyncFile(log, file) + [r.(synced := true)]
  {
    assert (log + [r])[..|log|] == log;
  }

  lemma InsertKeepsQueue(history: History, last: nat, arrived: seq<Writer>, done: nat, g: Group)
    requires QueueOK(history, last, arrived, done, Some(g)) && g.logged && g.inserted < |g.updates|
    ensures QueueOK(history + [g.updates[g.inserted]], last, arrived, done, Some(g.(inserted := g.inserted + 1)))
  {
    assert (history + [g.updates[g.inserted]])[..last] == history[..last];
    assert g.updates[..g.inserted+1] == g.updates[..g.inserted] + [g.updates[g.inserted]];
  }

  lemma FinishKeepsQueue(history: History, last: nat, arrived: seq<Writer>, done: nat, g: Group)
    requires QueueOK(history, last, arrived, done, Some(g)) && g.inserted == |g.updates|
    ensures QueueOK(history, |history|, arrived, done + g.count, None)
  {
    hide Updates;
    UpdatesUpTo(arrived, done, done + g.count);
    assert g.updates[..|g.updates|] == g.updates && history[..|history|] == history;
  }

  /** A writer without a batch adds nothing. */
  lemma NoBatch(arrived: seq<Writer>, done: nat)
    requires done < |arrived| && arrived[done].batch.None?
    ensures Updates(arrived[..done+1]) == Updates(arrived[..done])
  {
    assert arrived[..done+1][..done] == arrived[..done];
  }

  lemma CommitStepKeeps(s: Commit, a: CommitAction, s': Commit)
    requires CommitOK(s) && CommitStep(s, a, s')
    ensures CommitOK(s')
  {
    hide LogOK, Step, IsGroup, QueueOK, LogAfter;
    var h, last := s.st.history, s.st.lastSequence;
    match a
    case Room => StepHistory(s.st, SwitchMemTable, s'.st);
    case Background(b) => StepHistory(s.st, b, s'.st);
    case Arrive(w) =>
      ArriveKeepsQueue(h, last, s.arrived, s.done, s.group, w);
      ArriveKeepsLog(s.log, s.arrived, Logged(s), w);
    case Lead =>
      LeadKeepsQueue(h, last, s.arrived, s.done, s'.group.value.count);
    case AddRecord =>
      LoggedKeepsQueue(h, last, s.arrived, s.done, s.group.value);
      AddRecordKeepsLog(h, last, s.arrived, s.done, s.group.value, s.log, s.logFile);
    case Insert =>
      StepHistory(s.st, AppendUpdate(s.group.value.updates[s.group.value.inserted]), s'.st);
      InsertKeepsQueue(h, last, s.arrived, s.done, s.group.value);
    case Finish =>
      StepHistory(s.st, Publish, s'.st);
      FinishKeepsQueue(h, last, s.arrived, s.done, s.group.value);
    case Force =>
      StepHistory(s.st, SwitchMemTable, s'.st);
      ForceKeepsQueue(h, last, s.arrived, s.done);
      ForceKeepsLog(s.log, s.arrived, s.done);
  }

  /** What the store's steps do to the history. */
  lemma StepHistory(st: Store, a: Action, st': Store)
    requires Step(st, a, st')
    ensures st'.history == if a.AppendUpdate? then st.history + [a.update] else st.history
    ensures st'.lastSequence == if a == Publish then |st.history| else st.lastSequence
  {
  }

  lemma ForceKeepsQueue(history: History, last: nat, arrived: seq<Writer>, done: nat)
    requires QueueOK(history, last, arrived, done, None) && done < |arrived| && arrived[done].batch.None?
    ensures QueueOK(history, last, arrived, done + 1, None)
  {
    NoBatch(arrived, done);
  }

  /** Recording the group changes nothing else. */
  lemma LoggedKeepsQueue(history: History, last: nat, arrived: seq<Writer>, done: nat, g: Group)
    requires QueueOK(history, last, arrived, done, Some(g))
    ensures QueueOK(history, last, arrived, done, Some(g.(logged := true)))
  {
  }

  lemma ForceKeepsLog(log: seq<LogRecord>, arrived: seq<Writer>, n: nat)
    requires LogOK(log, arrived, n) && n < |arrived| && arrived[n].batch.None?
    ensures LogOK(log, arrived, n + 1)
  {
    NoBatch(arrived, n);
  }

  // ---------------------------------------------------------------- all interleavings

  ghost predicate IsCommitRun(states: seq<Commit>, actions: seq<CommitAction>) {
    && |states| == |actions| + 1
    && Initial(states[0].st) && states[0] == Commit(states[0].st, [], 0, None, [], states[0].logFile)
    && forall i :: 0 <= i < |actions| ==> CommitStep(states[i], actions[i], states[i+1])
  }

  lemma InitialCommitOK(s: Commit)
    requires Initial(s.st) && s == Commit(s.st, [], 0, None, [], s.logFile)
    ensures CommitOK(s)
  {
    assert s.arrived[..0] == [];
  }

  /** In every interleaving of Write calls with each other and with the background work. */
  lemma {:induction false} CommitRunKeeps(states: seq<Commit>, actions: seq<CommitAction>, i: nat)
    requires IsCommitRun(states, actions) && i < |states|
    ensures CommitOK(states[i])
  {
    hide CommitOK, CommitStep;
    if i == 0 {
      InitialCommitOK(states[0]);
    } else {
      CommitRunKeeps(states, actions, i - 1);
      CommitStepKeeps(states[i-1], actions[i-1], states[i]);
    }
  }

  /** A writer is never overtaken and never applied twice: the visible history is the batches of the
      finished writers in the order they queued, and it only grows by whole groups. */
  lemma {:induction false} FinishedInOrder(states: seq<Commit>, actions: seq<CommitAction>, i: nat, j: nat)
    requires IsCommitRun(states, actions) && i <= j < |states|
    ensures states[i].arrived <= states[j].arrived && states[i].done <= states[j].done <= |states[j].arrived|
    ensures states[i].st.lastSequence <= |states[i].st.history| && states[j].st.lastSequence <= |states[j].st.history|
    ensures states[j].st.history[..states[j].st.lastSequence] ==
            states[i].st.history[..states[i].st.lastSequence] +
              Updates(states[j].arrived[states[i].done..states[j].done])
  {
    ArrivedGrows(states, actions, i, j);
    CommitRunKeeps(states, actions, i);
    CommitRunKeeps(states, actions, j);
    UpdatesUpTo(states[j].arrived, states[i].done, states[j].done);
    assert states[j].arrived[..states[i].done] == states[i].arrived[..states[i].done];
  }

  lemma {:induction false} ArrivedGrows(states: seq<Commit>, actions: seq<CommitAction>, i: nat, j: nat)
    requires IsCommitRun(states, actions) && i <= j < |states|
    ensures states[i].arrived <= states[j].arrived && states[i].done <= states[j].done
  {
    if i < j {
      ArrivedGrows(states, actions, i, j - 1);
      assert CommitStep(states[j-1], actions[j-1], states[j]);
    }
  }

  /** A concurrent read of the latest state, at any moment, sees all batches of the writers that are
      done and nothing of the others, not even of the group being inserted. */
  lemma ReadersSeeWholeBatches(s: Commit, user: UserKey)
    requires CommitOK(s)
    ensures s.done <= |s.arrived| && s.st.lastSequence <= |s.st.history|
    ensures var h := Updates(s.arrived[..s.done]);
      PlainGet(s.st.history, user, s.st.lastSequence) == PlainGet(h, user, |h|)
  {
    var h := Updates(s.arrived[..s.done]);
    assert h <= s.st.history;
    PlainGetOfPrefix(h, s.st.history, user, |h|);
  }

  /** Recovering any prefix of the log gives the batches of the first writers: a crash never tears a
      group apart, and a finished writer that asked for sync is in a synced record. */
  lemma LogPrefixIsGroups(s: Commit, k: nat)
    requires CommitOK(s) && k <= |s.log|
    ensures exists n :: 0 <= n <= |s.arrived| && n <= Logged(s) && Replay(s.log[..k]) == Updates(s.arrived[..n])
  {
    if k == |s.log| {
      assert s.log[..k] == s.log;
    } else {
      assert RecordOK(s.log, s.arrived, k);
    }
  }

  lemma SyncedWriterIsDurable(s: Commit, i: nat)
    requires CommitOK(s) && i < s.done && s.arrived[i].sync && s.arrived[i].batch.Some?
    ensures exists k :: 0 <= k < |s.log| && s.log[k].from <= i < s.log[k].to && s.log[k].synced
  {
    assert InLog(s.log, i);
    var k :| 0 <= k < |s.log| && s.log[k].from <= i < s.log[k].to;
    assert RecordOK(s.log, s.arrived, k);
  }

  // ---------------------------------------------------------------- the object

  class WriteQueue {
    const db: DB
    var writers: seq<Writer>         // writers_
    var group: Option<Group>         // the leader's updates, last_writer and progress
    var log: seq<LogRecord>
    var logFile: nat
    ghost var arrived: seq<Writer>
    var done: nat                    // writers finished so far

    ghost function State(): Commit
      reads this, db, db.versions
    {
      Commit(db.State(), arrived, done, group, log, logFile)
    }

    ghost predicate Valid()
      reads this, db, db.versions
    {
      db.Valid() && CommitOK(State()) && done <= |arrived| && writers == arrived[done..]
    }

    constructor (database: DB)
      requires database.Valid() && Initial(database.State())
      ensures Valid() && db == database && State() == Commit(db.State(), [], 0, None, [], 0)
    {
      db := database;
      writers, group, log, logFile := [], None, [], 0;
      arrived, done := [], 0;
      new;
      InitialCommitOK(State());
    }

    /** A caller of Write queues up. */
    method Enqueue(w: Writer)
      requires Valid()
      modifies this`writers, this`arrived
      ensures Valid() && CommitStep(old(State()), Arrive(w), State())
    {
      hide CommitOK, DB.Valid;
      ghost var before := State();
      writers := writers + [w];
      arrived := arrived + [w];
      CommitStepKeeps(before, Arrive(w), State());
    }

    /** The front writer builds its group. */
    method BuildGroup()
      requires Valid() && group.None? && writers != [] && writers[0].batch.Some?
      modifies this`group
      ensures Valid() && group.Some? && CommitStep(old(State()), Lead, State())
    {
      hide CommitOK, DB.Valid, IsGroup, Updates;
      ghost var before := State();
      var updates, n := BuildBatchGroup(writers);
      group := Some(Group(n, updates, false, 0));
      CommitStepKeeps(before, Lead, State());
    }

    /** Append the group to the log, and sync it if the leader asks for it. */
    method AddGroupRecord()
      requires Valid() && group.Some? && !group.value.logged && writers != []
      modifies this`group, this`log
      ensures Valid() && CommitStep(old(State()), AddRecord, State())
    {
      hide CommitOK, DB.Valid, SyncFile;
      ghost var before := State();
      var g := group.value;
      log := log + [LogRecord(logFile, db.lastSequence + 1, g.updates, false, done, done + g.count)];
      if writers[0].sync {
        log := SyncFile(log, logFile);
      }
      group := Some(g.(logged := true));
      CommitStepKeeps(before, AddRecord, State());
    }

    /** Insert the next update of the group into the memtable. */
    method InsertNext()
      requires Valid() && group.Some? && group.value.logged && group.value.inserted < |group.value.updates|
      requires |db.history| + 1 < MAX_SEQUENCE
      modifies this`group, db
      ensures Valid() && CommitStep(old(State()), CommitAction.Insert, State())
    {
      hide CommitOK, DB.Valid, Step;
      ghost var before := State();
      var g := group.value;
      InsertPosition(before);
      db.InsertUpdate(g.updates[g.inserted], db.lastSequence + g.inserted + 1);
      group := Some(g.(inserted := g.inserted + 1));
      CommitStepKeeps(before, CommitAction.Insert, State());
    }

    /** Pop until the last writer of the group. */
    method PopWriters(n: nat) returns (finished: seq<Writer>)
      requires n <= |writers|
      modifies this`writers
      ensures finished == old(writers)[..n] && writers == old(writers)[n..]
    {
      finished := [];
      while |finished| < n
        invariant |finished| <= n && old(writers) == finished + writers
      {
        finished := finished + [writers[0]];
        writers := writers[1..];
      }
    }

    /** Publish the group and take its writers off the queue. */
    method FinishGroup() returns (finished: seq<Writer>)
      requires Valid() && group.Some? && group.value.logged && group.value.inserted == |group.value.updates|
      modifies this, db
      ensures Valid() && CommitStep(old(State()), Finish, State())
      ensures |finished| == old(group).value.count && old(writers) == finished + writers
    {
      hide CommitOK, DB.Valid, Step, CommitStep;
      ghost var before := State();
      var g := group.value;
      InsertPosition(before);
      db.SetLastSequence(db.lastSequence + |g.updates|);
      finished := PopWriters(g.count);
      group := None;
      done := done + g.count;
      FinishIsStep(before, State());
      CommitStepKeeps(before, Finish, State());
    }
  }

  lemma FinishIsStep(s: Commit, s': Commit)
    requires s.group.Some? && s.group.value.logged && s.group.value.inserted == |s.group.value.updates|
    requires Step(s.st, Publish, s'.st) && s' == s.(st := s'.st, group := None, done := s.done + s.group.value.count)
    ensures CommitStep(s, Finish, s')
  {
    hide Step;
  }

  /** Where the leader stands in the history. */
  lemma InsertPosition(s: Commit)
    requires CommitOK(s) && s.group.Some?
    ensures s.group.value.inserted <= |s.group.value.updates|
    ensures s.st.lastSequence + s.group.value.inserted == |s.st.history|
    ensures 0 < s.group.value.count <= |s.arrived| - s.done
  {
    var g := s.group.value;
    assert |s.st.history[..s.st.lastSequence]| == s.st.lastSequence && |g.updates[..g.inserted]| == g.inserted;
  }
}
