/** The store as a state machine (leveldb/db/db_impl.cc): one step for every atomic change of the
    memtables, the version, the sequence number and the snapshots, the invariant all of them keep,
    and what a read means in terms of the plain history of writes. */
module Store {
  import opened Options
  import opened Slices
  import opened Runs
  import opened Versions
  import opened Builder
  import opened Picker
  import opened Compactions
  import opened CompactionWork
  import opened Install

  /** One update of a write batch. */
  datatype Update = Update(user: UserKey, kind: ValueType, value: Bytes)

  /** The history: update i has sequence number i + 1. */
  type History = seq<Update>

  /** The entry the n-th update puts into the memtable (MemTableInserter). */
  function EntryOf(history: History, n: nat): Entry
    requires 1 <= n <= |history|
  {
    var u := history[n-1];
    Entry(InternalKey(u.user, n, u.kind), if u.kind == Value then u.value else [])
  }

  /** The latest update of the key at or before sequence number s; 0 if there is none. */
  function LatestUpdate(history: History, user: UserKey, s: nat): (n: nat)
    requires s <= |history|
    ensures n <= s
    ensures n > 0 ==> history[n-1].user == user
    ensures forall i :: n <= i < s ==> history[i].user != user
  {
    if s == 0 then 0
    else if history[s-1].user == user then s
    else LatestUpdate(history, user, s - 1)
  }

  /** What a reader at sequence number s has to see: the newest write wins, a deletion hides. */
  function PlainGet(history: History, user: UserKey, s: nat): Option<Bytes>
    requires s <= |history|
  {
    var n := LatestUpdate(history, user, s);
    if n == 0 || history[n-1].kind == Deletion then None else Some(history[n-1].value)
  }

  /** DBImpl's answer: a deletion found and nothing found are the same NotFound status. */
  function ToOption(r: Lookup): Option<Bytes> {
    if r.Found? then Some(r.value) else None
  }

  datatype Store = Store(mem: Run, imm: Option<Run>, version: Version, lastSequence: nat,
                         snapshots: seq<nat>, nextFile: nat, history: History)

  /** The oldest sequence number a reader can still ask for (smallest_snapshot). */
  function Floor(st: Store): nat {
    if st.snapshots == [] then st.lastSequence else st.snapshots[0]
  }

  function ImmRun(st: Store): Run {
    if st.imm.Some? then st.imm.value else []
  }

  ghost predicate InStore(st: Store, e: Entry) {
    e in st.mem || e in ImmRun(st) || InVersion(st.version, e)
  }

  ghost predicate NewerThanFiles(run: Run, v: Version) {
    forall l, f :: 0 <= l < |v| && f in v[l] ==> Newer(run, f.entries)
  }

  /** Some reader at or above the floor sees update n: no later update of its key is at or below it. */
  ghost predicate Needed(history: History, n: nat, floor: nat) {
    1 <= n <= |history| && forall i :: n <= i < floor && i < |history| ==> history[i].user != history[n-1].user
  }

  /** A deletion that need not be stored any more: nothing older of its key is stored. */
  ghost predicate Obsolete(st: Store, n: nat) {
    1 <= n <= |st.history| && st.history[n-1].kind == Deletion &&
    forall e :: InStore(st, e) && e.key.user == st.history[n-1].user ==> e.key.sequence > n
  }

  ghost predicate FromHistory(st: Store, e: Entry) {
    1 <= e.key.sequence <= |st.history| && e == EntryOf(st.history, e.key.sequence)
  }

  ghost predicate SnapshotsOK(st: Store) {
    && (forall i, j :: 0 <= i < j < |st.snapshots| ==> st.snapshots[i] <= st.snapshots[j])
    && (forall i :: 0 <= i < |st.snapshots| ==> st.snapshots[i] <= st.lastSequence)
    && st.lastSequence <= |st.history| < MAX_SEQUENCE
  }

  /** Every stored entry is an update of the history; flushed ones are published. */
  ghost predicate StoredFromHistory(st: Store) {
    && (forall e :: InStore(st, e) ==> FromHistory(st, e))
    && (forall e :: e in ImmRun(st) || InVersion(st.version, e) ==> e.key.sequence <= st.lastSequence)
  }

  /** Every update a reader may need is stored, or is a deletion with nothing left to hide. */
  ghost predicate Retained(st: Store) {
    forall n: nat :: Needed(st.history, n, Floor(st)) ==> InStore(st, EntryOf(st.history, n)) || Obsolete(st, n)
  }

  ghost predicate Layered(st: Store) {
    && Sorted(st.mem) && Sorted(ImmRun(st))
    && Newer(st.mem, ImmRun(st)) && NewerThanFiles(st.mem, st.version) && NewerThanFiles(ImmRun(st), st.version)
  }

  ghost predicate NumbersBelow(v: Version, n: nat) {
    forall l, f :: 0 <= l < |v| && f in v[l] ==> f.number < n
  }

  ghost predicate StoreOK(st: Store) {
    && VersionOK(st.version) && NumbersBelow(st.version, st.nextFile)
    && Layered(st) && SnapshotsOK(st) && StoredFromHistory(st) && Retained(st)
  }

  // ---------------------------------------------------------------- reading

  /** `e` answers a read of `user` at `s`: it is the newest visible entry of the whole store. */
  ghost predicate NewestInStore(st: Store, user: UserKey, s: nat, e: Entry) {
    && InStore(st, e) && e.key.user == user && e.key.sequence <= s
    && forall x :: InStore(st, x) && x.key.user == user && x.key.sequence <= s ==> x.key.sequence <= e.key.sequence
  }

  ghost predicate NothingVisible(st: Store, user: UserKey, s: nat) {
    forall x :: InStore(st, x) && x.key.user == user ==> x.key.sequence > s
  }

  /** The newest stored entry is the newest write. */
  lemma NewestStoredIsLatest(st: Store, user: UserKey, s: nat, e: Entry)
    requires SnapshotsOK(st) && StoredFromHistory(st) && Retained(st)
    requires Floor(st) <= s <= |st.history|
    requires NewestInStore(st, user, s, e)
    ensures ToOption(Answer(e)) == PlainGet(st.history, user, s)
  {
    var n := LatestUpdate(st.history, user, s);
    assert FromHistory(st, e);
    assert e.key.sequence <= n;
    assert Needed(st.history, n, Floor(st));
    var x := EntryOf(st.history, n);
    assert InStore(st, x) by {
      assert !Obsolete(st, n);
    }
  }

  /** If nothing is stored for the key, nothing was written or it was deleted. */
  lemma NothingStoredIsNothing(st: Store, user: UserKey, s: nat)
    requires SnapshotsOK(st) && Retained(st)
    requires Floor(st) <= s <= |st.history|
    requires NothingVisible(st, user, s)
    ensures PlainGet(st.history, user, s) == None
  {
    var n := LatestUpdate(st.history, user, s);
    if n > 0 {
      assert Needed(st.history, n, Floor(st));
      var x := EntryOf(st.history, n);
      assert !InStore(st, x);
    }
  }

  // ---------------------------------------------------------------- the steps

  datatype Action =
    | AppendUpdate(update: Update)                 // WriteBatchInternal::InsertInto, one update
    | Publish                                      // SetLastSequence
    | SwitchMemTable                               // MakeRoomForWrite
    | DumpMemTable(level: nat, file: File)         // CompactMemTable with a non-empty table
    | DropEmptyMemTable                            // CompactMemTable with an empty one
    | Compact(c: Compaction, manual: bool, sizes: TableSizes, stream: Run, outputs: Level)
    | Move(c: Compaction)                          // trivial move
    | TakeSnapshot
    | ReleaseSnapshot(index: nat)

  /** Insert into a memtable, which keeps its entries sorted. */
  function InsertEntry(run: Run, e: Entry): Run {
    var n := LowerBound(run, e.key);
    run[..n] + [e] + run[n..]
  }

  ghost function DumpEdit(level: nat, f: File): VersionEdit { VersionEdit(None, {}, [LevelFile(level, f)]) }

  ghost predicate Meets(files: Level, smallest: UserKey, largest: UserKey) {
    exists g :: g in files && Overlaps(g, Some(smallest), Some(largest))
  }

  /** A new table may go below level l: nothing in the next level meets it, and not too many bytes of
      the level after that do. */
  ghost predicate MayDescend(v: Version, l: nat, smallest: UserKey, largest: UserKey)
    requires |v| == NUM_LEVELS && l < 2
  {
    && !Meets(v[l+1], smallest, largest)
    && TotalFileSize(Overlapping(v[l+2], Some(smallest), Some(largest))) <= 20971520
  }

  /** The level PickLevelForMemTableOutput chooses: the deepest one the table may descend to. */
  ghost predicate IsMemTableLevel(v: Version, smallest: UserKey, largest: UserKey, level: nat) {
    && |v| == NUM_LEVELS && level <= 2
    && if Meets(v[0], smallest, largest) then level == 0
       else
         && (forall l :: 0 <= l < level ==> MayDescend(v, l, smallest, largest))
         && (level < 2 ==> !MayDescend(v, level, smallest, largest))
  }

  /** No file of this level or of one above meets the table. */
  ghost predicate DumpLevelOK(v: Version, level: nat, f: File) {
    && level < NUM_LEVELS
    && (level > 0 ==> forall l, g :: 0 <= l <= level && l < |v| && g in v[l] ==>
          !Overlaps(g, Some(f.smallest.user), Some(f.largest.user)))
  }

  lemma MemTableLevelIsOK(v: Version, level: nat, f: File)
    requires IsMemTableLevel(v, f.smallest.user, f.largest.user, level)
    ensures DumpLevelOK(v, level, f)
  {
    forall l, g | 0 <= l <= level && level > 0 && g in v[l]
      ensures !Overlaps(g, Some(f.smallest.user), Some(f.largest.user))
    {
      if l > 0 { assert MayDescend(v, l - 1, f.smallest.user, f.largest.user); }
    }
  }

  /** A single input with nothing to merge with and at most twenty megabytes of grandparents moves as it is. */
  ghost predicate MayMove(c: Compaction) {
    |c.inputs0| == 1 && c.inputs1 == [] && TotalFileSize(c.grandparents) <= 20971520
  }

  lemma TrivialMoves(c: Compaction)
    ensures IsTrivialMove(c) <==> MayMove(c)
  {
  }

  ghost predicate Step(st: Store, a: Action, st': Store) {
    match a
    case AppendUpdate(u) =>
      && |st.history| + 1 < MAX_SEQUENCE
      && var h := st.history + [u];
         st' == st.(history := h, mem := InsertEntry(st.mem, EntryOf(h, |h|)))
    case Publish =>
      st' == st.(lastSequence := |st.history|)
    case SwitchMemTable =>
      && st.imm.None? && st.lastSequence == |st.history|
      && st' == st.(imm := Some(st.mem), mem := [])
    case DumpMemTable(level, f) =>
      && st.imm.Some? && WellFormed(f) && f.entries == st.imm.value && f.number == st.nextFile
      && IsMemTableLevel(st.version, f.smallest.user, f.largest.user, level)
      && Applied(st.version, DumpEdit(level, f), st'.version)
      && st' == st.(imm := None, nextFile := st.nextFile + 1, version := st'.version)
    case DropEmptyMemTable =>
      st.imm == Some([]) && st' == st.(imm := None, nextFile := st.nextFile + 1)
    case Compact(c, manual, sizes, stream, outputs) =>
      && PickOK(st.version, c) && HasGrandparents(st.version, c) && (manual || !MayMove(c))
      && CompactionOutputs(st.version, c, Floor(st), st.nextFile, sizes, stream, outputs)
      && Applied(st.version, CompactionEdit(c, outputs), st'.version)
      && st' == st.(nextFile := st.nextFile + |outputs|, version := st'.version)
    case Move(c) =>
      && PickOK(st.version, c) && HasGrandparents(st.version, c) && MayMove(c)
      && Applied(st.version, CompactionEdit(c, c.inputs0), st'.version)
      && st' == st.(version := st'.version)
    case TakeSnapshot =>
      st' == st.(snapshots := st.snapshots + [st.lastSequence])
    case ReleaseSnapshot(i) =>
      && i < |st.snapshots|
      && st' == st.(snapshots := st.snapshots[..i] + st.snapshots[i+1..])
  }

  // ---------------------------------------------------------------- what a compaction may leave behind

  /** The drop rule for deletions takes the input entry away. */
  ghost predicate DroppedAsDeletion(st: Store, c: Compaction, x: Entry) {
    x.key.kind == Deletion && x.key.sequence <= Floor(st) && IsBaseLevel(st.version, c.level, x.key.user)
  }

  /** The drop rule for hidden entries does. */
  ghost predicate HiddenInInputs(st: Store, c: Compaction, x: Entry) {
    exists z :: InInputs(c, z) && z.key.user == x.key.user && x.key.sequence < z.key.sequence <= Floor(st)
  }

  /** Every reader sees something newer of the key. */
  ghost predicate Covered(st: Store, x: Entry) {
    exists z :: InStore(st, z) && z.key.user == x.key.user && x.key.sequence < z.key.sequence <= Floor(st)
  }

  /** The file g, which is left behind and continues the input h, does no harm: in the level of inputs0, all
      of h's entries for the shared key are dropped; and a deletion of h that is dropped is covered. */
  ghost predicate Harmless(st: Store, c: Compaction, h: File, g: File)
    requires PickOK(st.version, c)
  {
    forall x :: x in h.entries && x.key.user == h.largest.user ==>
      && (g in st.version[c.level] ==> DroppedAsDeletion(st, c, x) || HiddenInInputs(st, c, x))
      && (DroppedAsDeletion(st, c, x) ==> Covered(st, x))
  }

  /** What a merging compaction needs; see CompactExact. */
  ghost predicate MergeOK(st: Store, c: Compaction)
    requires PickOK(st.version, c)
  {
    forall h, g :: IsInput(c, h) && LeftBehind(st.version, c, g) && Continues(h, g) ==> Harmless(st, c, h, g)
  }

  /** What compactions and moves need; see StepExact. */
  ghost predicate ActionOK(st: Store, a: Action) {
    match a
    case Compact(c, _, _, _, _) => PickOK(st.version, c) && MergeOK(st, c)
    case Move(c) => PickOK(st.version, c) && BoundaryOK(st.version, c)
    case _ => true
  }

  /** If nothing is left behind that continues an input, a merge is fine as well. */
  lemma BoundarySuffices(st: Store, c: Compaction)
    requires VersionOK(st.version) && PickOK(st.version, c) && BoundaryOK(st.version, c)
    ensures MergeOK(st, c)
  {
    var v := st.version;
    LevelFacts(v, c.level);
    LevelFacts(v, c.level + 1);
    forall h, g | IsInput(c, h) && LeftBehind(v, c, g) ensures !Continues(h, g) {
      InputIsInLevel(v, c, h);
      LeftoversAreNewer(v, c, h, g);
      if Continues(h, g) { ContinuationIsOlder(h, g); }
    }
  }

  // ---------------------------------------------------------------- writes, switches and snapshots

  lemma InsertElements(run: Run, e: Entry)
    ensures forall x :: x in InsertEntry(run, e) <==> x in run || x == e
  {
    assert run == run[..LowerBound(run, e.key)] + run[LowerBound(run, e.key)..];
  }

  lemma InsertSorted(run: Run, e: Entry)
    requires Sorted(run) && forall i :: 0 <= i < |run| ==> run[i].key != e.key
    ensures Sorted(InsertEntry(run, e))
  {
    var n := LowerBound(run, e.key);
    var r := InsertEntry(run, e);
    forall i | n <= i < |run| ensures Less(e.key, run[i].key) {
      if i > n { assert Less(run[n].key, run[i].key); }
    }
    hide Less, LowerBound;
    assert |r| == |run| + 1;
    forall i | 0 <= i < |r| ensures r[i] == if i < n then run[i] else if i == n then e else run[i-1] {
    }
    forall i, j | 0 <= i < j < |r| ensures Less(r[i].key, r[j].key) {
      if j < n { } else if j == n { } else if i > n { assert r[i] == run[i-1] && r[j] == run[j-1]; }
      else if i == n { assert r[j] == run[j-1]; }
      else { assert r[j] == run[j-1]; LessTransitive(run[i].key, e.key, run[j-1].key); }
    }
  }

  lemma LessTransitive(a: InternalKey, b: InternalKey, c: InternalKey)
    requires Less(a, b) && Less(b, c)
    ensures Less(a, c)
  {
  }

  lemma AppendKeeps(st: Store, u: Update, st': Store)
    requires StoreOK(st) && Step(st, AppendUpdate(u), st')
    ensures StoreOK(st')
  {
    var h, e := st'.history, EntryOf(st'.history, |st'.history|);
    forall x | InStore(st, x) ensures x.key.sequence <= |st.history| && x.key != e.key {
      assert FromHistory(st, x);
    }
    forall i | 0 <= i < |st.mem| ensures st.mem[i].key != e.key { assert InStore(st, st.mem[i]); }
    InsertSorted(st.mem, e);
    InsertElements(st.mem, e);
    forall x ensures InStore(st', x) <==> InStore(st, x) || x == e {
    }
    forall x, y | x in st'.mem && (y in ImmRun(st) || InVersion(st.version, y)) && x.key.user == y.key.user
      ensures Less(x.key, y.key)
    {
      if x == e { assert InStore(st, y); }
      else { MemNewer(st, x, y); }
    }
    forall l, f | 0 <= l < |st.version| && f in st.version[l] ensures Newer(st'.mem, f.entries) {
      forall y | y in f.entries ensures InVersion(st.version, y) { assert InFiles(st.version[l], y); }
    }
    forall x | InStore(st', x) ensures FromHistory(st', x) {
      if x != e { assert FromHistory(st, x); }
    }
    forall n: nat | Needed(h, n, Floor(st')) ensures InStore(st', EntryOf(h, n)) || Obsolete(st', n) {
      if n < |h| {
        assert Needed(st.history, n, Floor(st)) by {
          forall i | n <= i < Floor(st) && i < |st.history| ensures st.history[i].user != st.history[n-1].user {
            assert h[i].user != h[n-1].user;
          }
        }
        assert EntryOf(h, n) == EntryOf(st.history, n);
      }
    }
  }

  lemma MemNewer(st: Store, x: Entry, y: Entry)
    requires Layered(st) && x in st.mem && (y in ImmRun(st) || InVersion(st.version, y))
    requires x.key.user == y.key.user
    ensures Less(x.key, y.key)
  {
    if InVersion(st.version, y) {
      var l :| 0 <= l < |st.version| && InFiles(st.version[l], y);
      var f :| f in st.version[l] && y in f.entries;
      assert Newer(st.mem, f.entries);
    }
  }

  /** Raising the floor makes fewer updates needed. */
  lemma HigherFloor(st: Store, st': Store)
    requires Retained(st) && st'.history == st.history && Floor(st) <= Floor(st')
    requires forall e :: InStore(st', e) <==> InStore(st, e)
    ensures Retained(st')
  {
    forall n: nat | Needed(st'.history, n, Floor(st'))
      ensures InStore(st', EntryOf(st'.history, n)) || Obsolete(st', n)
    {
      assert Needed(st.history, n, Floor(st));
    }
  }

  lemma PublishKeeps(st: Store, st': Store)
    requires StoreOK(st) && Step(st, Publish, st')
    ensures StoreOK(st')
  {
    assert forall e :: InStore(st', e) <==> InStore(st, e);
    HigherFloor(st, st');
  }

  lemma SwitchKeeps(st: Store, st': Store)
    requires StoreOK(st) && Step(st, SwitchMemTable, st')
    ensures StoreOK(st')
  {
    forall e ensures InStore(st', e) <==> InStore(st, e) {
    }
    HigherFloor(st, st');
    forall e | e in ImmRun(st') || InVersion(st'.version, e) ensures e.key.sequence <= st'.lastSequence {
      assert InStore(st, e) && FromHistory(st, e);
    }
    assert forall e :: FromHistory(st', e) <==> FromHistory(st, e);
  }

  lemma SnapshotKeeps(st: Store, a: Action, st': Store)
    requires StoreOK(st) && (a == TakeSnapshot || a.ReleaseSnapshot?) && Step(st, a, st')
    ensures StoreOK(st')
  {
    assert forall e :: InStore(st', e) <==> InStore(st, e);
    assert forall e :: FromHistory(st', e) <==> FromHistory(st, e);
    HigherFloor(st, st');
  }

  // ---------------------------------------------------------------- dumping the memtable

  ghost predicate AfterDump(v: Version, level: nat, f: File, l: nat, g: File)
    requires l < |v|
  {
    g in v[l] || (l == level && g == f)
  }

  lemma DumpMeaning(v: Version, level: nat, f: File, v': Version)
    requires |v| == NUM_LEVELS && level < NUM_LEVELS && Applied(v, DumpEdit(level, f), v')
    ensures |v'| == NUM_LEVELS
    ensures forall l :: 0 <= l < NUM_LEVELS ==> LevelSorted(v'[l])
    ensures forall l, g :: 0 <= l < NUM_LEVELS ==> (g in v'[l] <==> AfterDump(v, level, f, l, g))
  {
    forall l, g | 0 <= l < NUM_LEVELS ensures g in v'[l] <==> AfterDump(v, level, f, l, g) {
      assert g in v'[l] <==> InEdited(v[l], DumpEdit(level, f), l, g);
    }
  }

  /** Files whose user-key ranges do not meet are apart and ordered both ways. */
  lemma NoOverlap(f: File, g: File)
    requires WellFormed(f) && WellFormed(g) && !Overlaps(g, Some(f.smallest.user), Some(f.largest.user))
    ensures Apart(f, g) && Apart(g, f) && Newer(f.entries, g.entries) && Newer(g.entries, f.entries)
  {
    EntryInBounds(f, f.entries[0]);
    EntryInBounds(g, g.entries[0]);
    forall x, y | x in f.entries && y in g.entries ensures x.key.user != y.key.user {
      EntryInBounds(f, x);
      EntryInBounds(g, y);
    }
  }

  /** The dumped table fits in its level and is newer than everything below. */
  lemma DumpFits(v: Version, level: nat, f: File, l: nat, g: File)
    requires VersionOK(v) && WellFormed(f) && DumpLevelOK(v, level, f) && NewerThanFiles(f.entries, v)
    requires l < NUM_LEVELS && g in v[l]
    ensures l == level > 0 ==> Apart(f, g) && Apart(g, f)
    ensures level <= l ==> Newer(f.entries, g.entries)
    ensures l < level ==> Newer(g.entries, f.entries)
  {
    LevelFacts(v, l);
    if l <= level && level > 0 { NoOverlap(f, g); }
  }

  lemma DumpKeepsLevel(v: Version, level: nat, f: File, v': Version, l: nat, nextFile: nat)
    requires VersionOK(v) && WellFormed(f) && DumpLevelOK(v, level, f) && NewerThanFiles(f.entries, v)
    requires NumbersBelow(v, nextFile) && f.number == nextFile
    requires Applied(v, DumpEdit(level, f), v') && l < NUM_LEVELS
    ensures AllWellFormed(v'[l]) && DistinctNumbers(v'[l])
    ensures l > 0 ==> LevelDisjoint(v'[l])
  {
    DumpMeaning(v, level, f, v');
    LevelFacts(v, l);
    hide VersionOK;
    forall i, j | 0 <= i < j < |v'[l]| && l > 0 ensures Less(v'[l][i].largest, v'[l][j].smallest) {
      var g, h := v'[l][i], v'[l][j];
      assert g in v'[l] && h in v'[l] && BySmallest(g, h);
      assert Apart(g, h) by {
        if g in v[l] && h in v[l] { DisjointPair(v[l], g, h); }
        else if g in v[l] { DumpFits(v, level, f, l, g); }
        else if h in v[l] { DumpFits(v, level, f, l, h); }
      }
      SortedApart(g, h);
    }
  }

  lemma DumpKeepsVersionOK(v: Version, level: nat, f: File, v': Version, nextFile: nat)
    requires VersionOK(v) && WellFormed(f) && DumpLevelOK(v, level, f) && NewerThanFiles(f.entries, v)
    requires NumbersBelow(v, nextFile) && f.number == nextFile
    requires Applied(v, DumpEdit(level, f), v')
    ensures VersionOK(v') && NumbersBelow(v', nextFile + 1)
  {
    DumpMeaning(v, level, f, v');
    assert NewerByNumber(v[0]);
    hide LevelSorted, LevelDisjoint, AllWellFormed, WellFormed, DumpLevelOK;
    forall l | 0 <= l < NUM_LEVELS
      ensures AllWellFormed(v'[l]) && DistinctNumbers(v'[l]) && (l > 0 ==> LevelDisjoint(v'[l]))
    {
      DumpKeepsLevel(v, level, f, v', l, nextFile);
    }
    forall l, m, g, h | 0 <= l < m < NUM_LEVELS && g in v'[l] && h in v'[m]
      ensures Newer(g.entries, h.entries) && g.number != h.number
    {
      if g in v[l] && h in v[m] { Ordered(v, l, m, g, h); }
      else if g in v[l] { DumpFits(v, level, f, l, g); }
      else if h in v[m] { DumpFits(v, level, f, m, h); }
    }
    forall g, h | g in v'[0] && h in v'[0] && g.number > h.number ensures Newer(g.entries, h.entries) {
      if g !in v[0] { DumpFits(v, level, f, 0, h); }
    }
  }

  lemma DumpKeeps(st: Store, level: nat, f: File, st': Store)
    requires StoreOK(st) && Step(st, DumpMemTable(level, f), st')
    ensures StoreOK(st')
  {
    var v, v' := st.version, st'.version;
    MemTableLevelIsOK(v, level, f);
    DumpKeepsVersionOK(v, level, f, v', st.nextFile);
    DumpMeaning(v, level, f, v');
    forall e ensures InStore(st', e) <==> InStore(st, e) {
      DumpContents(v, level, f, v', e);
    }
    forall e | InVersion(v', e) ensures e.key.sequence <= st.lastSequence { DumpContents(v, level, f, v', e); }
    HigherFloor(st, st');
    assert forall e :: FromHistory(st', e) <==> FromHistory(st, e);
    forall l: nat, g: File | 0 <= l < |v'| && g in v'[l] ensures Newer(st'.mem, g.entries) {
      assert AfterDump(v, level, f, l, g);
    }
  }

  lemma DumpContents(v: Version, level: nat, f: File, v': Version, e: Entry)
    requires |v| == NUM_LEVELS && level < NUM_LEVELS && Applied(v, DumpEdit(level, f), v')
    ensures InVersion(v', e) <==> InVersion(v, e) || e in f.entries
  {
    DumpMeaning(v, level, f, v');
    if InVersion(v', e) {
      var l :| 0 <= l < |v'| && InFiles(v'[l], e);
      var g :| g in v'[l] && e in g.entries;
      assert AfterDump(v, level, f, l, g);
      if g in v[l] { assert InFiles(v[l], e); }
    }
    if InVersion(v, e) {
      var l :| 0 <= l < |v| && InFiles(v[l], e);
      var g :| g in v[l] && e in g.entries;
      assert AfterDump(v, level, f, l, g);
      assert InFiles(v'[l], e);
    }
    if e in f.entries {
      assert AfterDump(v, level, f, level, f);
      assert InFiles(v'[level], e);
    }
  }

  // ---------------------------------------------------------------- compactions

  /** The entry is in a file that stays or in an output. */
  ghost predicate Surviving(v: Version, c: Compaction, outputs: Level, e: Entry)
    requires PickOK(v, c)
  {
    exists l, f :: 0 <= l < NUM_LEVELS && AfterInstall(v, c, outputs, l, f) && e in f.entries
  }

  lemma InstalledContents(v: Version, c: Compaction, outputs: Level, v': Version, e: Entry)
    requires PickOK(v, c) && Installed(v, c, outputs, v')
    ensures InVersion(v', e) <==> Surviving(v, c, outputs, e)
  {
    if InVersion(v', e) {
      var l :| 0 <= l < |v'| && InFiles(v'[l], e);
      var f :| f in v'[l] && e in f.entries;
      assert AfterInstall(v, c, outputs, l, f);
    }
    if Surviving(v, c, outputs, e) {
      var l, f :| 0 <= l < NUM_LEVELS && AfterInstall(v, c, outputs, l, f) && e in f.entries;
      assert f in v'[l] && InFiles(v'[l], e);
    }
  }

  /** Nothing appears: every surviving entry was in the version before. */
  lemma SurvivingWasThere(v: Version, c: Compaction, outputs: Level, e: Entry)
    requires PickOK(v, c) && GoodOutputs(v, c, outputs) && Surviving(v, c, outputs, e)
    ensures InVersion(v, e)
  {
    var l, f :| 0 <= l < NUM_LEVELS && AfterInstall(v, c, outputs, l, f) && e in f.entries;
    if f in v[l] {
      assert InFiles(v[l], e);
    } else {
      var h := OutputEntry(v, c, outputs, f, e);
      InputIsInLevel(v, c, h);
      assert InFiles(v[InputLevel(c, h)], e);
    }
  }

  /** An entry of the version survives, or it is an input entry. */
  lemma SurvivesOrInput(v: Version, c: Compaction, outputs: Level, e: Entry)
    requires PickOK(v, c) && InVersion(v, e)
    ensures Surviving(v, c, outputs, e) || InInputs(c, e)
  {
    var l :| 0 <= l < |v| && InFiles(v[l], e);
    var f :| f in v[l] && e in f.entries;
    if !IsInput(c, f) { assert AfterInstall(v, c, outputs, l, f); }
  }

  lemma OutputSurvives(v: Version, c: Compaction, outputs: Level, e: Entry)
    requires PickOK(v, c) && InFiles(outputs, e)
    ensures Surviving(v, c, outputs, e)
  {
    var f :| f in outputs && e in f.entries;
    assert AfterInstall(v, c, outputs, c.level + 1, f);
  }

  lemma InputFileOf(v: Version, c: Compaction, x: Entry) returns (h: File)
    requires PickOK(v, c) && InInputs(c, x)
    ensures IsInput(c, h) && x in h.entries && InVersion(v, x)
  {
    if InFiles(c.inputs0, x) { h :| h in c.inputs0 && x in h.entries; }
    else { h :| h in c.inputs1 && x in h.entries; }
    InputIsInLevel(v, c, h);
    assert InFiles(v[InputLevel(c, h)], x);
  }

  /** What stays and is older than an input entry x, for the same key, is in a file left behind that
      continues x's file, or below level+1. */
  lemma OlderSurvivor(v: Version, c: Compaction, outputs: Level, x: Entry, h: File, l: nat, f: File, e: Entry)
    requires VersionOK(v) && PickOK(v, c) && IsInput(c, h) && x in h.entries
    requires l <= c.level + 1 && AfterInstall(v, c, outputs, l, f) && f !in outputs && e in f.entries
    requires e.key.user == x.key.user && !Less(e.key, x.key)
    ensures LeftBehind(v, c, f) && Continues(h, f) && x.key.user == h.largest.user && Less(x.key, e.key)
  {
    hide VersionOK, PickOK, AfterInstall, LeftBehind, IsInput, Continues, Less, Newer;
    StayedThere(v, c, outputs, l, f);
    InputEntryIsElsewhere(v, c, h, x, l, f);
    InputIsInLevel(v, c, h);
    if l < c.level {
      Ordered(v, l, InputLevel(c, h), f, h);
      assert Newer(f.entries, h.entries) && e.key.user == x.key.user;
      NewerMeans(f.entries, h.entries, e, x);
      assert false;
    } else {
      OtherwiseOlder(x.key, e.key);
      OlderLeftContinues(v, c, h, f, x, e);
    }
  }

  lemma NewerMeans(a: Run, b: Run, x: Entry, y: Entry)
    requires Newer(a, b) && x in a && y in b && x.key.user == y.key.user
    ensures Less(x.key, y.key)
  {
  }

  lemma StayedThere(v: Version, c: Compaction, outputs: Level, l: nat, f: File)
    requires VersionOK(v) && PickOK(v, c) && l <= c.level + 1 && AfterInstall(v, c, outputs, l, f) && f !in outputs
    ensures l < NUM_LEVELS == |v| && f in v[l] && !IsInput(c, f) && (l >= c.level ==> LeftBehind(v, c, f))
  {
    NotAnInput(v, c, l, f);
  }

  /** With MergeOK, no file left behind continues an input's dropped deletion that nothing covers. */
  lemma UncoveredContinues(st: Store, c: Compaction, h: File, g: File, x: Entry)
    requires PickOK(st.version, c) && MergeOK(st, c)
    requires IsInput(c, h) && LeftBehind(st.version, c, g) && x in h.entries && x.key.user == h.largest.user
    requires DroppedAsDeletion(st, c, x) && !Covered(st, x)
    ensures !Continues(h, g)
  {
    assert Continues(h, g) ==> Harmless(st, c, h, g);
  }

  /** A dropped deletion that nothing covers leaves nothing older of its key anywhere. */
  lemma DroppedDeletionHidesNothing(st: Store, c: Compaction, sizes: TableSizes, stream: Run, outputs: Level, i: nat, e: Entry)
    requires StoreOK(st) && PickOK(st.version, c) && MergeOK(st, c)
    requires CompactionOutputs(st.version, c, Floor(st), st.nextFile, sizes, stream, outputs)
    requires i < |stream| && DroppedAsDeletion(st, c, stream[i]) && !Covered(st, stream[i])
    requires e in st.mem || e in ImmRun(st) || Surviving(st.version, c, outputs, e)
    requires e.key.user == stream[i].key.user
    ensures e == stream[i] || Less(e.key, stream[i].key)
  {
    var v, x := st.version, stream[i];
    assert x in stream && InInputs(c, x);
    var h := InputFileOf(v, c, x);
    assert VersionOK(v) && Layered(st);
    hide StoreOK, VersionOK, Layered, PickOK, CompactionOutputs, InVersion, WellFormed, Less, Dropped, Covered;
    hide Continues, LeftBehind, IsInput;
    if Surviving(v, c, outputs, e) && !(e in st.mem || e in ImmRun(st)) {
      var l, f :| 0 <= l < NUM_LEVELS && AfterInstall(v, c, outputs, l, f) && e in f.entries;
      if f in outputs {
        OutputNotOlder(v, c, Floor(st), st.nextFile, sizes, stream, outputs, i, e, f);
      } else if l <= c.level + 1 {
        if !Less(e.key, x.key) {
          OlderSurvivor(v, c, outputs, x, h, l, f, e);
          UncoveredContinues(st, c, h, f, x);
          assert false;
        }
      } else {
        BelowBaseLevel(v, c, outputs, l, f, e);
      }
    } else {
      MemAboveFiles(st, e, x);
    }
  }

  /** A base level for a key has no entry of it below. */
  lemma BelowBaseLevel(v: Version, c: Compaction, outputs: Level, l: nat, f: File, e: Entry)
    requires VersionOK(v) && PickOK(v, c) && c.level + 2 <= l < NUM_LEVELS
    requires AfterInstall(v, c, outputs, l, f) && e in f.entries
    ensures !IsBaseLevel(v, c.level, e.key.user)
  {
    LevelFacts(v, l);
    EntryInBounds(f, e);
  }

  lemma MemAboveFiles(st: Store, e: Entry, x: Entry)
    requires Layered(st) && (e in st.mem || e in ImmRun(st)) && InVersion(st.version, x)
    requires e.key.user == x.key.user
    ensures Less(e.key, x.key)
  {
    var l :| 0 <= l < |st.version| && InFiles(st.version[l], x);
    var f :| f in st.version[l] && x in f.entries;
    assert Newer(st.mem, f.entries) && Newer(ImmRun(st), f.entries);
  }

  lemma OutputNotOlder(v: Version, c: Compaction, floor: nat, first: nat, sizes: TableSizes, stream: Run, outputs: Level,
                       i: nat, e: Entry, f: File)
    requires CompactionOutputs(v, c, floor, first, sizes, stream, outputs)
    requires i < |stream| && stream[i].key.sequence <= floor
    requires f in outputs && e in f.entries && e.key.user == stream[i].key.user
    ensures e == stream[i] || Less(e.key, stream[i].key)
  {
    assert InFiles(outputs, e);
    ConcatElements(outputs, e);
    KeptIsInput(stream, floor, v, c.level, e);
    var j :| 0 <= j < |stream| && stream[j] == e;
    KeptIfNotDropped(stream, |stream|, j, floor, v, c.level);
    if j > i { OlderIsDropped(stream, i, j, floor, v, c.level); }
    else if j < i { assert Less(stream[j].key, stream[i].key); }
  }

  lemma CompactOutputsGood(st: Store, c: Compaction, sizes: TableSizes, stream: Run, outputs: Level)
    requires StoreOK(st) && PickOK(st.version, c)
    requires CompactionOutputs(st.version, c, Floor(st), st.nextFile, sizes, stream, outputs)
    ensures GoodOutputs(st.version, c, outputs)
  {
    forall f, e | f in outputs && e in f.entries ensures InInputs(c, e) {
      assert InFiles(outputs, e);
      ConcatElements(outputs, e);
      KeptIsInput(stream, Floor(st), st.version, c.level, e);
    }
  }

  /** An update that a reader may need survives the compaction or becomes obsolete. */
  lemma NeededSurvives(st: Store, c: Compaction, sizes: TableSizes, stream: Run, outputs: Level, st': Store, n: nat)
    requires StoreOK(st) && PickOK(st.version, c) && MergeOK(st, c)
    requires CompactionOutputs(st.version, c, Floor(st), st.nextFile, sizes, stream, outputs)
    requires st' == st.(version := st'.version, nextFile := st'.nextFile)
    requires Installed(st.version, c, outputs, st'.version) && GoodOutputs(st.version, c, outputs)
    requires Needed(st.history, n, Floor(st))
    ensures InStore(st', EntryOf(st.history, n)) || Obsolete(st', n)
  {
    var v, x, floor := st.version, EntryOf(st.history, n), Floor(st);
    hide MergeOK, GoodOutputs, VersionOK;
    InstalledContents(v, c, outputs, st'.version, x);
    if InStore(st, x) && !InStore(st', x) {
      SurvivesOrInput(v, c, outputs, x);
      assert InputStream(c, stream) && Concat(outputs) == KeptStream(stream, floor, v, c.level);
      var i :| 0 <= i < |stream| && stream[i] == x;
      KeptIfNotDropped(stream, |stream|, i, floor, v, c.level);
      hide Dropped;
      if !Dropped(stream, i, floor, v, c.level) {
        ConcatElements(outputs, x);
        OutputSurvives(v, c, outputs, x);
        assert false;
      }
      NeededNotHidden(st, c, stream, i);
      NeededNotCovered(st, x);
      NothingOlderStays(st, c, sizes, stream, outputs, st', i);
    } else if !InStore(st, x) {
      assert Obsolete(st, n) by { StoredFacts(st); }
      forall e | InStore(st', e) ensures InStore(st, e) { StaysStored(st, c, outputs, st', e); }
    }
  }

  lemma StaysStored(st: Store, c: Compaction, outputs: Level, st': Store, e: Entry)
    requires PickOK(st.version, c) && GoodOutputs(st.version, c, outputs)
    requires Installed(st.version, c, outputs, st'.version) && st' == st.(version := st'.version, nextFile := st'.nextFile)
    requires InStore(st', e)
    ensures InStore(st, e)
  {
    if InVersion(st'.version, e) {
      InstalledContents(st.version, c, outputs, st'.version, e);
      SurvivingWasThere(st.version, c, outputs, e);
    }
  }

  lemma NothingOlderStays(st: Store, c: Compaction, sizes: TableSizes, stream: Run, outputs: Level, st': Store, i: nat)
    requires StoreOK(st) && PickOK(st.version, c) && MergeOK(st, c)
    requires CompactionOutputs(st.version, c, Floor(st), st.nextFile, sizes, stream, outputs)
    requires st' == st.(version := st'.version, nextFile := st'.nextFile)
    requires Installed(st.version, c, outputs, st'.version) && GoodOutputs(st.version, c, outputs)
    requires i < |stream| && DroppedAsDeletion(st, c, stream[i]) && !Covered(st, stream[i]) && !InStore(st', stream[i])
    requires FromHistory(st, stream[i])
    ensures Obsolete(st', stream[i].key.sequence)
  {
    var x := stream[i];
    hide StoreOK, PickOK, MergeOK, CompactionOutputs, Installed, GoodOutputs, DroppedAsDeletion, Covered;
    assert x.key.kind == Deletion by { DeletionIs(st, c, x); }
    forall e | InStore(st', e) && e.key.user == x.key.user ensures e.key.sequence > x.key.sequence {
      StaysStored(st, c, outputs, st', e);
      InstalledContents(st.version, c, outputs, st'.version, e);
      DroppedDeletionHidesNothing(st, c, sizes, stream, outputs, i, e);
      StoredIsHistory(st, e);
      NewerInHistory(st, e, x);
    }
  }

  lemma DeletionIs(st: Store, c: Compaction, x: Entry)
    requires DroppedAsDeletion(st, c, x)
    ensures x.key.kind == Deletion && x.key.sequence <= Floor(st)
  {
  }

  lemma StoredIsHistory(st: Store, e: Entry)
    requires StoreOK(st) && InStore(st, e)
    ensures FromHistory(st, e)
  {
    StoredFacts(st);
  }

  lemma NeededNotCovered(st: Store, x: Entry)
    requires StoreOK(st) && FromHistory(st, x) && Needed(st.history, x.key.sequence, Floor(st))
    ensures !Covered(st, x)
  {
    hide StoreOK, Needed, InStore, FromHistory, Floor;
    if Covered(st, x) {
      var z :| InStore(st, z) && z.key.user == x.key.user && x.key.sequence < z.key.sequence <= Floor(st);
      StoredIsHistory(st, z);
      NotNeededBelow(st, x.key.sequence, z.key.sequence, Floor(st), x, z);
    }
  }

  /** Conversely, a stored update that nothing stored covers is needed. */
  lemma UncoveredIsNeeded(st: Store, x: Entry)
    requires StoreOK(st) && InStore(st, x) && !Covered(st, x)
    ensures FromHistory(st, x) && Needed(st.history, x.key.sequence, Floor(st))
  {
    StoredFacts(st);
    var n, floor := x.key.sequence, Floor(st);
    assert floor <= |st.history| by { FloorPublished(st); }
    hide StoreOK, VersionOK, Layered, InVersion, Floor;
    if !Needed(st.history, n, floor) {
      var i :| n <= i < floor && i < |st.history| && st.history[i].user == st.history[n-1].user;
      LatestCovers(st, x, floor);
      assert false;
    }
  }

  /** The latest update at the floor is stored, or nothing older is. */
  lemma LatestCovers(st: Store, x: Entry, floor: nat)
    requires Retained(st) && InStore(st, x) && floor == Floor(st) <= |st.history|
    requires exists i :: x.key.sequence <= i < floor && st.history[i].user == x.key.user
    ensures Covered(st, x)
  {
    var m := LatestUpdate(st.history, x.key.user, floor);
    assert m > x.key.sequence;
    assert Needed(st.history, m, floor);
    assert InStore(st, EntryOf(st.history, m));
  }

  lemma FloorPublished(st: Store)
    requires SnapshotsOK(st)
    ensures Floor(st) <= st.lastSequence <= |st.history|
  {
    if st.snapshots != [] { assert st.snapshots[0] <= st.lastSequence; }
  }

  /** Of two history entries of one key the one that sorts first has the larger sequence number. */
  lemma NewerInHistory(st: Store, e: Entry, x: Entry)
    requires FromHistory(st, e) && FromHistory(st, x) && e.key.user == x.key.user && Less(e.key, x.key)
    ensures e.key.sequence > x.key.sequence
  {
  }

  /** A needed update is not hidden by a newer one that every reader sees (drop rule A). */
  lemma NeededNotHidden(st: Store, c: Compaction, stream: Run, i: nat)
    requires StoreOK(st) && PickOK(st.version, c) && InputStream(c, stream) && i < |stream|
    requires Needed(st.history, stream[i].key.sequence, Floor(st))
    requires Dropped(stream, i, Floor(st), st.version, c.level)
    ensures stream[i].key.kind == Deletion && stream[i].key.sequence <= Floor(st)
    ensures IsBaseLevel(st.version, c.level, stream[i].key.user)
  {
    hide StoreOK, PickOK, Needed, InStore, FromHistory, Floor, InInputs, Less, Sorted, IsBaseLevel;
    if i > 0 && stream[i-1].key.user == stream[i].key.user && stream[i-1].key.sequence <= Floor(st) {
      StreamIsHistory(st, c, stream, i);
      StreamIsHistory(st, c, stream, i - 1);
      assert Less(stream[i-1].key, stream[i].key) by { assert Sorted(stream); SortedAt(stream, i); }
      NewerInHistory(st, stream[i-1], stream[i]);
      NotNeededBelow(st, stream[i].key.sequence, stream[i-1].key.sequence, Floor(st), stream[i], stream[i-1]);
      assert false;
    }
  }

  lemma SortedAt(run: Run, i: nat)
    requires Sorted(run) && 0 < i < |run|
    ensures Less(run[i-1].key, run[i].key)
  {
  }

  lemma StreamIsHistory(st: Store, c: Compaction, stream: Run, i: nat)
    requires StoreOK(st) && PickOK(st.version, c) && InputStream(c, stream) && i < |stream|
    ensures FromHistory(st, stream[i])
  {
    assert stream[i] in stream;
    hide StoreOK, PickOK;
    var h := InputFileOf(st.version, c, stream[i]);
    assert InStore(st, stream[i]);
    assert StoredFromHistory(st) by { StoredFacts(st); }
  }

  lemma StoredFacts(st: Store)
    requires StoreOK(st)
    ensures StoredFromHistory(st) && Retained(st) && Layered(st) && SnapshotsOK(st)
    ensures VersionOK(st.version) && NumbersBelow(st.version, st.nextFile)
  {
  }

  /** An update with a later one of its key at or below the floor is not needed. */
  lemma NotNeededBelow(st: Store, n: nat, m: nat, floor: nat, x: Entry, y: Entry)
    requires FromHistory(st, x) && FromHistory(st, y) && x.key.user == y.key.user
    requires x.key.sequence == n < m == y.key.sequence <= floor
    ensures !Needed(st.history, n, floor)
  {
    assert st.history[m-1].user == st.history[n-1].user;
  }

  /** After an installation the memtables are still newer than all files. */
  lemma InstallKeepsRunAbove(v: Version, c: Compaction, outputs: Level, v': Version, run: Run)
    requires PickOK(v, c) && GoodOutputs(v, c, outputs) && Installed(v, c, outputs, v') && NewerThanFiles(run, v)
    ensures NewerThanFiles(run, v')
  {
    forall l, f | 0 <= l < |v'| && f in v'[l] ensures Newer(run, f.entries) {
      assert AfterInstall(v, c, outputs, l, f);
      if f !in v[l] {
        forall x, y | x in run && y in f.entries && x.key.user == y.key.user ensures Less(x.key, y.key) {
          var h := OutputEntry(v, c, outputs, f, y);
          InputIsInLevel(v, c, h);
          assert Newer(run, h.entries);
        }
      }
    }
  }

  /** The parts of the invariant that every installation keeps in the same way. */
  lemma InstallKeepsShape(st: Store, c: Compaction, outputs: Level, st': Store)
    requires StoreOK(st) && PickOK(st.version, c) && OutputsOrdered(st.version, c, outputs)
    requires GoodOutputs(st.version, c, outputs) && Installed(st.version, c, outputs, st'.version)
    requires st' == st.(version := st'.version, nextFile := st'.nextFile) && st.nextFile <= st'.nextFile
    requires forall f :: f in outputs ==> f.number < st'.nextFile
    ensures VersionOK(st'.version) && NumbersBelow(st'.version, st'.nextFile)
    ensures Layered(st') && SnapshotsOK(st') && StoredFromHistory(st')
    ensures forall e :: InStore(st', e) ==> InStore(st, e)
  {
    hide StoreOK, VersionOK, PickOK, OutputsOrdered, GoodOutputs, Installed, StoredFromHistory, Retained, NumbersBelow;
    hide InVersion;
    StoredFacts(st);
    var v, v' := st.version, st'.version;
    InstallKeepsVersionOK(v, c, outputs, v');
    InstallKeepsRunAbove(v, c, outputs, v', st.mem);
    InstallKeepsRunAbove(v, c, outputs, v', ImmRun(st));
    forall e | InVersion(v', e) ensures InVersion(v, e) {
      InstalledContents(v, c, outputs, v', e);
      SurvivingWasThere(v, c, outputs, e);
    }
    FewerFromHistory(st, st');
    InstallKeepsNumbers(v, c, outputs, v', st.nextFile, st'.nextFile);
  }

  lemma FewerFromHistory(st: Store, st': Store)
    requires StoredFromHistory(st) && st'.history == st.history && st'.lastSequence == st.lastSequence
    requires st'.mem == st.mem && st'.imm == st.imm && forall e :: InVersion(st'.version, e) ==> InVersion(st.version, e)
    ensures StoredFromHistory(st')
  {
    forall e | InStore(st', e) ensures FromHistory(st', e) {
      assert FromHistory(st, e);
    }
  }

  lemma InstallKeepsNumbers(v: Version, c: Compaction, outputs: Level, v': Version, n: nat, n': nat)
    requires PickOK(v, c) && Installed(v, c, outputs, v') && NumbersBelow(v, n) && n <= n'
    requires forall f :: f in outputs ==> f.number < n'
    ensures NumbersBelow(v', n')
  {
    forall l: nat, f: File | 0 <= l < |v'| && f in v'[l] ensures f.number < n' {
      assert AfterInstall(v, c, outputs, l, f);
    }
  }

  /** The drop rules, told of the inputs. */
  lemma DroppedMeans(st: Store, c: Compaction, stream: Run, i: nat)
    requires StoreOK(st) && PickOK(st.version, c) && InputStream(c, stream) && i < |stream|
    ensures Dropped(stream, i, Floor(st), st.version, c.level) <==>
            DroppedAsDeletion(st, c, stream[i]) || HiddenInInputs(st, c, stream[i])
  {
    hide StoreOK, PickOK, IsBaseLevel, Floor, InStore, FromHistory, InInputs;
    var x := stream[i];
    if i > 0 && stream[i-1].key.user == x.key.user && stream[i-1].key.sequence <= Floor(st) {
      var z := stream[i-1];
      assert z in stream && Less(z.key, x.key);
      StreamIsHistory(st, c, stream, i);
      StreamIsHistory(st, c, stream, i - 1);
      NewerInHistory(st, z, x);
      assert HiddenInInputs(st, c, x);
    }
    if HiddenInInputs(st, c, x) {
      var z :| InInputs(c, z) && z.key.user == x.key.user && x.key.sequence < z.key.sequence <= Floor(st);
      var j :| 0 <= j < |stream| && stream[j] == z;
      assert i < j ==> Less(x.key, z.key);
      assert j < i - 1 ==> Less(z.key, stream[i-1].key);
      assert Less(stream[i-1].key, x.key);
    }
  }

  /** With MergeOK, what stays in the inputs' level is newer than the outputs. */
  lemma KeptInOrder(st: Store, c: Compaction, sizes: TableSizes, stream: Run, outputs: Level)
    requires StoreOK(st) && PickOK(st.version, c) && MergeOK(st, c)
    requires CompactionOutputs(st.version, c, Floor(st), st.nextFile, sizes, stream, outputs)
    requires GoodOutputs(st.version, c, outputs)
    ensures OutputsOrdered(st.version, c, outputs)
  {
    var v := st.version;
    hide StoreOK, PickOK, MergeOK, CompactionOutputs, GoodOutputs;
    StoredFacts(st);
    hide VersionOK;
    forall g, o, y, x | LeftInLevel(v, c, g) && o in outputs && OneKey(g, o, y, x) ensures Less(y.key, x.key)
    {
      OutputBelow(st, c, sizes, stream, outputs, g, o, y, x);
    }
    OrderedIs(v, c, outputs);
  }

  ghost predicate LeftInLevel(v: Version, c: Compaction, g: File)
    requires PickOK(v, c)
  {
    g in v[c.level] && g !in c.inputs0
  }

  /** Entries of the two files for one user key. */
  ghost predicate OneKey(g: File, o: File, y: Entry, x: Entry) {
    y in g.entries && x in o.entries && x.key.user == y.key.user
  }

  lemma OrderedIs(v: Version, c: Compaction, outputs: Level)
    requires PickOK(v, c)
    requires forall g, o, y, x :: LeftInLevel(v, c, g) && o in outputs && OneKey(g, o, y, x) ==> Less(y.key, x.key)
    ensures OutputsOrdered(v, c, outputs)
  {
    forall g, o, y, x | g in v[c.level] && g !in c.inputs0 && o in outputs && OneKey(g, o, y, x)
      ensures Less(y.key, x.key)
    {
      assert LeftInLevel(v, c, g);
    }
    assert forall g, o :: g in v[c.level] && g !in c.inputs0 && o in outputs ==> Newer(g.entries, o.entries) by {
      forall g, o | g in v[c.level] && g !in c.inputs0 && o in outputs ensures Newer(g.entries, o.entries) {
        forall y, x | y in g.entries && x in o.entries && x.key.user == y.key.user ensures Less(y.key, x.key) {
          assert OneKey(g, o, y, x);
        }
      }
    }
  }

  lemma OutputBelow(st: Store, c: Compaction, sizes: TableSizes, stream: Run, outputs: Level, g: File, o: File, y: Entry, x: Entry)
    requires StoreOK(st) && PickOK(st.version, c) && MergeOK(st, c)
    requires CompactionOutputs(st.version, c, Floor(st), st.nextFile, sizes, stream, outputs)
    requires GoodOutputs(st.version, c, outputs) && LeftInLevel(st.version, c, g)
    requires o in outputs && y in g.entries && x in o.entries && x.key.user == y.key.user
    ensures Less(y.key, x.key)
  {
    hide StoreOK, VersionOK, PickOK, GoodOutputs, Harmless, CompactionOutputs, Less, Continues, IsInput, LeftBehind;
    var v := st.version;
    var h := OutputEntry(v, c, outputs, o, x);
    StoredFacts(st);
    LevelInBounds(v, c);
    LeftInLevelStays(v, c, g);
    InputEntryIsElsewhere(v, c, h, x, c.level, g);
    if !Less(y.key, x.key) {
      OtherwiseOlder(x.key, y.key);
      OlderLeftContinues(v, c, h, g, x, y);
      assert Harmless(st, c, h, g);
      KeptIsNotDropped(st, c, sizes, stream, outputs, o, x);
      HarmlessMeans(st, c, h, g, x);
      assert false;
    }
  }

  lemma OtherwiseOlder(a: InternalKey, b: InternalKey)
    requires a.user == b.user && a != b && !Less(b, a)
    ensures Less(a, b)
  {
  }

  lemma LevelInBounds(v: Version, c: Compaction)
    requires PickOK(v, c)
    ensures |v| == NUM_LEVELS && c.level + 1 < NUM_LEVELS
  {
  }

  lemma LeftInLevelStays(v: Version, c: Compaction, g: File)
    requires VersionOK(v) && PickOK(v, c) && LeftInLevel(v, c, g)
    ensures !IsInput(c, g) && LeftBehind(v, c, g) && g in v[c.level]
  {
    NotAnInput(v, c, c.level, g);
  }

  lemma HarmlessMeans(st: Store, c: Compaction, h: File, g: File, x: Entry)
    requires PickOK(st.version, c) && Harmless(st, c, h, g) && x in h.entries && x.key.user == h.largest.user
    requires g in st.version[c.level]
    ensures DroppedAsDeletion(st, c, x) || HiddenInInputs(st, c, x)
  {
  }

  /** An entry is in the outputs exactly if it is an input entry that no rule drops. */
  lemma KeptIsNotDropped(st: Store, c: Compaction, sizes: TableSizes, stream: Run, outputs: Level, o: File, x: Entry)
    requires StoreOK(st) && PickOK(st.version, c)
    requires CompactionOutputs(st.version, c, Floor(st), st.nextFile, sizes, stream, outputs)
    requires o in outputs && x in o.entries
    ensures !DroppedAsDeletion(st, c, x) && !HiddenInInputs(st, c, x)
  {
    assert InFiles(outputs, x);
    OutputsHold(st, c, sizes, stream, outputs, x);
  }

  lemma OutputsHold(st: Store, c: Compaction, sizes: TableSizes, stream: Run, outputs: Level, x: Entry)
    requires StoreOK(st) && PickOK(st.version, c)
    requires CompactionOutputs(st.version, c, Floor(st), st.nextFile, sizes, stream, outputs)
    ensures InFiles(outputs, x) <==> InInputs(c, x) && !DroppedAsDeletion(st, c, x) && !HiddenInInputs(st, c, x)
  {
    var v := st.version;
    ConcatElements(outputs, x);
    if InFiles(outputs, x) { KeptIsInput(stream, Floor(st), v, c.level, x); }
    hide DroppedAsDeletion, HiddenInInputs;
    assert InputStream(c, stream) && Concat(outputs) == KeptStream(stream, Floor(st), v, c.level);
    if InInputs(c, x) {
      var i :| 0 <= i < |stream| && stream[i] == x;
      KeptIfNotDropped(stream, |stream|, i, Floor(st), v, c.level);
      DroppedMeans(st, c, stream, i);
    }
  }

  lemma CompactKeeps(st: Store, c: Compaction, sizes: TableSizes, stream: Run, outputs: Level, st': Store)
    requires StoreOK(st) && PickOK(st.version, c) && MergeOK(st, c)
    requires CompactionOutputs(st.version, c, Floor(st), st.nextFile, sizes, stream, outputs)
    requires Applied(st.version, CompactionEdit(c, outputs), st'.version)
    requires st' == st.(nextFile := st.nextFile + |outputs|, version := st'.version)
    ensures StoreOK(st')
  {
    EditInstalls(st.version, c, outputs, st'.version);
    CompactOutputsGood(st, c, sizes, stream, outputs);
    KeptInOrder(st, c, sizes, stream, outputs);
    assert forall f :: f in outputs ==> f.number < st'.nextFile;
    hide MergeOK, CompactionOutputs, Applied, PickOK, GoodOutputs, Installed, OutputsOrdered, VersionOK;
    InstallKeepsShape(st, c, outputs, st');
    hide StoreOK;
    forall n: nat | Needed(st'.history, n, Floor(st'))
      ensures InStore(st', EntryOf(st'.history, n)) || Obsolete(st', n)
    {
      NeededSurvives(st, c, sizes, stream, outputs, st', n);
    }
    IsStoreOK(st');
  }

  /** Without MergeOK, the invariant is lost: something older is in front of a kept entry, or a deletion
      that some reader needs is gone while what it deletes is still there. */
  lemma CompactBreaks(st: Store, c: Compaction, sizes: TableSizes, stream: Run, outputs: Level, st': Store)
    requires StoreOK(st) && PickOK(st.version, c) && !MergeOK(st, c)
    requires CompactionOutputs(st.version, c, Floor(st), st.nextFile, sizes, stream, outputs)
    requires Applied(st.version, CompactionEdit(c, outputs), st'.version)
    requires st' == st.(nextFile := st.nextFile + |outputs|, version := st'.version)
    ensures !StoreOK(st')
  {
    var v := st.version;
    EditInstalls(v, c, outputs, st'.version);
    CompactOutputsGood(st, c, sizes, stream, outputs);
    StoredFacts(st);
    hide StoreOK, VersionOK, CompactionOutputs, Applied, GoodOutputs, Installed, DroppedAsDeletion, HiddenInInputs, Covered;
    hide IsInput, LeftBehind, Continues, PickOK;
    var h, g :| IsInput(c, h) && LeftBehind(v, c, g) && Continues(h, g) && !Harmless(st, c, h, g);
    HarmBreaks(st, c, sizes, stream, outputs, st', h, g);
  }

  lemma HarmBreaks(st: Store, c: Compaction, sizes: TableSizes, stream: Run, outputs: Level, st': Store, h: File, g: File)
    requires StoreOK(st) && PickOK(st.version, c) && Installed(st.version, c, outputs, st'.version)
    requires CompactionOutputs(st.version, c, Floor(st), st.nextFile, sizes, stream, outputs)
    requires GoodOutputs(st.version, c, outputs) && st' == st.(version := st'.version, nextFile := st'.nextFile)
    requires IsInput(c, h) && LeftBehind(st.version, c, g) && Continues(h, g) && !Harmless(st, c, h, g)
    ensures !StoreOK(st')
  {
    hide StoreOK, VersionOK, PickOK, CompactionOutputs, GoodOutputs, Installed, DroppedAsDeletion, HiddenInInputs;
    hide Covered, IsInput, LeftBehind, Continues, OutputsOrdered, Harmless, WellFormed, StoredFromHistory, Retained;
    hide Layered, SnapshotsOK;
    var v := st.version;
    StoredFacts(st);
    LevelInBounds(v, c);
    var x := HarmedEntry(st, c, h, g);
    FirstIsOlder(v, c, h, g, x);
    InputEntryKnown(v, c, h, x);
    OutputsHold(st, c, sizes, stream, outputs, x);
    if DroppedAsDeletion(st, c, x) && !Covered(st, x) {
      DeletionLost(st, c, outputs, st', h, g, x);
    } else {
      var o :| o in outputs && x in o.entries;
      LeftOnly(v, c, g);
      assert !OutputsOrdered(v, c, outputs) by { OutOfOrder(v, c, outputs, g, o, g.entries[0], x); }
      InstallVersionExact(v, c, outputs, st'.version);
      if StoreOK(st') { StoredFacts(st'); }
    }
  }

  lemma HarmedEntry(st: Store, c: Compaction, h: File, g: File) returns (x: Entry)
    requires PickOK(st.version, c) && !Harmless(st, c, h, g)
    ensures x in h.entries && x.key.user == h.largest.user && |st.version| == NUM_LEVELS && c.level < NUM_LEVELS
    ensures (g in st.version[c.level] && !DroppedAsDeletion(st, c, x) && !HiddenInInputs(st, c, x)) ||
            (DroppedAsDeletion(st, c, x) && !Covered(st, x))
  {
    hide DroppedAsDeletion, HiddenInInputs, Covered;
    x :| x in h.entries && x.key.user == h.largest.user &&
      ((g in st.version[c.level] && !DroppedAsDeletion(st, c, x) && !HiddenInInputs(st, c, x)) ||
       (DroppedAsDeletion(st, c, x) && !Covered(st, x)));
  }

  /** The first entry of a file left behind that continues an input is older than the input's entries. */
  lemma FirstIsOlder(v: Version, c: Compaction, h: File, g: File, x: Entry)
    requires VersionOK(v) && PickOK(v, c) && IsInput(c, h) && LeftBehind(v, c, g) && Continues(h, g)
    requires x in h.entries && x.key.user == h.largest.user
    ensures g.entries != [] && g.entries[0] in g.entries && g.entries[0].key == g.smallest
    ensures Less(x.key, g.entries[0].key) && g.entries[0].key.user == x.key.user
    ensures WellFormed(h) && WellFormed(g)
  {
    LevelFacts(v, c.level);
    LevelFacts(v, c.level + 1);
    InputIsInLevel(v, c, h);
    ContinuingIsOlder(h, g, x, g.entries[0]);
  }

  lemma InputEntryKnown(v: Version, c: Compaction, h: File, x: Entry)
    requires PickOK(v, c) && IsInput(c, h) && x in h.entries
    ensures InInputs(c, x) && InVersion(v, x)
  {
    InputIsInLevel(v, c, h);
    assert InFiles(v[InputLevel(c, h)], x);
  }

  lemma LeftOnly(v: Version, c: Compaction, g: File)
    requires VersionOK(v) && PickOK(v, c) && LeftBehind(v, c, g)
    ensures g in v[c.level] ==> g !in c.inputs0
    ensures g in v[c.level+1] ==> g !in c.inputs1
    ensures !IsInput(c, g)
  {
    SameLevels(v, c, g, g);
    InputsThere(v, c);
    if g in v[c.level] { NotAnInput(v, c, c.level, g); } else { NotAnInput(v, c, c.level + 1, g); }
  }

  lemma InputsThere(v: Version, c: Compaction)
    requires PickOK(v, c)
    ensures c.level + 1 < NUM_LEVELS == |v|
    ensures forall f :: f in c.inputs0 ==> f in v[c.level]
    ensures forall f :: f in c.inputs1 ==> f in v[c.level+1]
  {
  }

  lemma OutOfOrder(v: Version, c: Compaction, outputs: Level, g: File, o: File, y: Entry, x: Entry)
    requires PickOK(v, c) && g in v[c.level] && g !in c.inputs0 && o in outputs
    requires y in g.entries && x in o.entries && x.key.user == y.key.user && Less(x.key, y.key)
    ensures !OutputsOrdered(v, c, outputs)
  {
    assert !Newer(g.entries, o.entries);
  }

  lemma DeletionLost(st: Store, c: Compaction, outputs: Level, st': Store, h: File, g: File, x: Entry)
    requires StoreOK(st) && PickOK(st.version, c) && Installed(st.version, c, outputs, st'.version)
    requires GoodOutputs(st.version, c, outputs)
    requires st' == st.(version := st'.version, nextFile := st'.nextFile)
    requires IsInput(c, h) && LeftBehind(st.version, c, g) && x in h.entries && !InFiles(outputs, x) && !Covered(st, x)
    requires g.entries != [] && g.entries[0] in g.entries && g.entries[0].key.user == x.key.user
    requires Less(x.key, g.entries[0].key)
    ensures !StoreOK(st')
  {
    var v, y := st.version, g.entries[0];
    StoredFacts(st);
    InputEntryKnown(v, c, h, x);
    UncoveredIsNeeded(st, x);
    GoneFromStore(st, c, outputs, st', h, x);
    LeftStays(st, c, outputs, st', g, y);
    StoredIsHistory(st, y);
    NewerInHistory(st, x, y);
    assert Floor(st') == Floor(st) && Needed(st'.history, x.key.sequence, Floor(st'));
    assert EntryOf(st'.history, x.key.sequence) == x;
    assert !Obsolete(st', x.key.sequence);
    if StoreOK(st') { StoredFacts(st'); }
  }

  /** What the outputs do not have of the inputs is nowhere. */
  lemma GoneFromStore(st: Store, c: Compaction, outputs: Level, st': Store, h: File, x: Entry)
    requires StoreOK(st) && PickOK(st.version, c) && Installed(st.version, c, outputs, st'.version)
    requires st' == st.(version := st'.version, nextFile := st'.nextFile)
    requires IsInput(c, h) && x in h.entries && !InFiles(outputs, x)
    ensures !InStore(st', x)
  {
    var v := st.version;
    StoredFacts(st);
    InputEntryKnown(v, c, h, x);
    InstalledContents(v, c, outputs, st'.version, x);
    hide StoreOK, VersionOK, PickOK, Installed, WellFormed;
    if x in st.mem || x in ImmRun(st) { MemAboveFiles(st, x, x); }
    if Surviving(v, c, outputs, x) {
      var l, f :| 0 <= l < NUM_LEVELS && AfterInstall(v, c, outputs, l, f) && x in f.entries;
      NotAnInput(v, c, l, f);
      InputEntryIsElsewhere(v, c, h, x, l, f);
      assert false;
    }
  }

  lemma LeftStays(st: Store, c: Compaction, outputs: Level, st': Store, g: File, y: Entry)
    requires VersionOK(st.version) && PickOK(st.version, c) && Installed(st.version, c, outputs, st'.version)
    requires st' == st.(version := st'.version, nextFile := st'.nextFile)
    requires LeftBehind(st.version, c, g) && y in g.entries
    ensures InStore(st', y) && InStore(st, y)
  {
    var v := st.version;
    LeftOnly(v, c, g);
    InstalledContents(v, c, outputs, st'.version, y);
    var l := if g in v[c.level] then c.level else c.level + 1;
    assert AfterInstall(v, c, outputs, l, g) && InFiles(v[l], y);
  }

  /** A merging compaction keeps the invariant if and only if what it leaves behind is harmless: a check
      on the state before it. */
  lemma CompactExact(st: Store, c: Compaction, manual: bool, sizes: TableSizes, stream: Run, outputs: Level, st': Store)
    requires StoreOK(st) && Step(st, Compact(c, manual, sizes, stream, outputs), st')
    ensures StoreOK(st') <==> MergeOK(st, c)
  {
    hide StoreOK, PickOK, MergeOK, CompactionOutputs, Applied, HasGrandparents, IsTrivialMove;
    if MergeOK(st, c) { CompactKeeps(st, c, sizes, stream, outputs, st'); }
    else { CompactBreaks(st, c, sizes, stream, outputs, st'); }
  }

  /** The moved file keeps a number that no file staying behind has. */
  lemma MovedNumber(v: Version, c: Compaction, f: File, l: nat, g: File)
    requires VersionOK(v) && c.level < NUM_LEVELS && f in v[c.level] && f in c.inputs0
    requires l < NUM_LEVELS && g in v[l] && !IsInput(c, g)
    ensures f.number != g.number
  {
    LevelFacts(v, c.level);
    if l < c.level { Ordered(v, l, c.level, g, f); }
    else if c.level < l { Ordered(v, c.level, l, f, g); }
  }

  lemma MoveOutputsGood(v: Version, c: Compaction)
    requires VersionOK(v) && PickOK(v, c) && IsTrivialMove(c)
    ensures GoodOutputs(v, c, c.inputs0)
  {
    var f := c.inputs0[0];
    assert f in c.inputs0;
    assert f in v[c.level];
    LevelFacts(v, c.level);
    assert forall g :: g in c.inputs0 ==> g == f;
    hide VersionOK, WellFormed, Overlaps, IsRange;
    forall l, g | 0 <= l < NUM_LEVELS && g in v[l] && !IsInput(c, g) ensures f.number != g.number {
      MovedNumber(v, c, f, l, g);
    }
    forall g, e | g in c.inputs0 && e in g.entries ensures InInputs(c, e) {
    }
  }

  /** A trivial move keeps every stored entry. */
  lemma MoveKeepsEntries(v: Version, c: Compaction, v': Version)
    requires PickOK(v, c) && IsTrivialMove(c) && Installed(v, c, c.inputs0, v')
    ensures forall e :: InVersion(v, e) ==> InVersion(v', e)
  {
    assert c.inputs1 == [];
    hide PickOK, Installed, Surviving, InVersion, IsTrivialMove;
    forall e | InVersion(v, e) ensures InVersion(v', e) {
      SurvivesOrInput(v, c, c.inputs0, e);
      if InInputs(c, e) { OutputSurvives(v, c, c.inputs0, e); }
      InstalledContents(v, c, c.inputs0, v', e);
    }
  }

  /** A trivial move keeps the invariant if and only if no file stays behind that continues the moved one. */
  lemma MoveKeepsExactly(st: Store, c: Compaction, st': Store)
    requires StoreOK(st) && Step(st, Move(c), st')
    ensures StoreOK(st') <==> BoundaryOK(st.version, c)
  {
    var v, v' := st.version, st'.version;
    hide StoreOK, VersionOK, BoundaryOK, Layered, Installed, GoodOutputs, NumbersBelow, StoredFromHistory, Retained;
    hide InVersion, Applied, CompactionEdit, SnapshotsOK, HasGrandparents, OutputsOrdered;
    StoredFacts(st);
    assert forall f :: f in c.inputs0 ==> f in v[c.level] && f.number < st.nextFile by { InputNumbers(v, c, st.nextFile); }
    hide PickOK, IsTrivialMove;
    EditInstalls(v, c, c.inputs0, v');
    MoveOutputsGood(v, c);
    MoveExact(v, c, v');
    if BoundaryOK(v, c) {
      BoundaryOrders(v, c, c.inputs0);
      InstallKeepsShape(st, c, c.inputs0, st');
      MoveKeepsEntries(v, c, v');
      HigherFloor(st, st');
      IsStoreOK(st');
    } else if StoreOK(st') {
      StoredFacts(st');
    }
  }

  lemma InputNumbers(v: Version, c: Compaction, n: nat)
    requires PickOK(v, c) && NumbersBelow(v, n)
    ensures forall f :: f in c.inputs0 ==> f in v[c.level] && f.number < n
  {
  }

  lemma IsStoreOK(st: Store)
    requires StoredFromHistory(st) && Retained(st) && Layered(st) && SnapshotsOK(st)
    requires VersionOK(st.version) && NumbersBelow(st.version, st.nextFile)
    ensures StoreOK(st)
  {
  }

  // ---------------------------------------------------------------- all runs

  /** A step keeps the invariant if and only if its action, if it is a compaction or a move, leaves behind
      nothing that does harm. */
  lemma StepExact(st: Store, a: Action, st': Store)
    requires StoreOK(st) && Step(st, a, st')
    ensures StoreOK(st') <==> ActionOK(st, a)
  {
    match a
    case Compact(c, manual, sizes, stream, outputs) =>
      assert PickOK(st.version, c);
      hide StoreOK, Step, PickOK, MergeOK;
      CompactExact(st, c, manual, sizes, stream, outputs, st');
    case Move(c) =>
      assert PickOK(st.version, c);
      hide StoreOK, Step, PickOK, BoundaryOK;
      MoveKeepsExactly(st, c, st');
    case _ =>
      hide StoreOK, Step;
      StepKeeps(st, a, st');
  }

  lemma StepKeeps(st: Store, a: Action, st': Store)
    requires StoreOK(st) && Step(st, a, st') && ActionOK(st, a)
    ensures StoreOK(st')
  {
    hide StoreOK, Step, MergeOK, BoundaryOK, PickOK;
    match a
    case AppendUpdate(u) => AppendKeeps(st, u, st');
    case Publish => PublishKeeps(st, st');
    case SwitchMemTable => SwitchKeeps(st, st');
    case DumpMemTable(level, f) => DumpKeeps(st, level, f, st');
    case DropEmptyMemTable => DropEmptyKeeps(st, st');
    case Compact(c, manual, sizes, stream, outputs) => CompactExact(st, c, manual, sizes, stream, outputs, st');
    case Move(c) => MoveKeepsExactly(st, c, st');
    case TakeSnapshot => SnapshotKeeps(st, a, st');
    case ReleaseSnapshot(_) => SnapshotKeeps(st, a, st');
  }

  lemma DropEmptyKeeps(st: Store, st': Store)
    requires StoreOK(st) && Step(st, DropEmptyMemTable, st')
    ensures StoreOK(st')
  {
    assert forall e :: InStore(st', e) <==> InStore(st, e);
    assert forall e :: FromHistory(st', e) <==> FromHistory(st, e);
    HigherFloor(st, st');
  }

  /** The empty store. */
  ghost predicate Initial(st: Store) {
    && st.mem == [] && st.imm == None && st.lastSequence == 0 && st.snapshots == [] && st.history == []
    && st.version == NO_FILES
  }

  lemma EmptyVersionOK(v: Version)
    requires |v| == NUM_LEVELS && forall l :: 0 <= l < NUM_LEVELS ==> v[l] == []
    ensures VersionOK(v)
    ensures forall e :: !InVersion(v, e)
  {
    forall l, m | 0 <= l < m < NUM_LEVELS ensures LevelNewer(v[l], v[m]) && NoSharedNumber(v[l], v[m]) {
    }
  }

  lemma InitialOK(st: Store)
    requires Initial(st)
    ensures StoreOK(st)
  {
    forall l | 0 <= l < NUM_LEVELS ensures NO_FILES[l] == [] {
    }
    EmptyVersionOK(st.version);
    hide VersionOK, InVersion;
    assert Layered(st) && StoredFromHistory(st) && Retained(st);
  }

  /** A run: states and the actions between them. */
  ghost predicate IsRun(states: seq<Store>, actions: seq<Action>) {
    && |states| == |actions| + 1 && Initial(states[0])
    && forall i :: 0 <= i < |actions| ==> Step(states[i], actions[i], states[i+1])
  }

  ghost predicate RunActionsOK(states: seq<Store>, actions: seq<Action>)
    requires |states| == |actions| + 1
  {
    forall i :: 0 <= i < |actions| ==> ActionOK(states[i], actions[i])
  }

  lemma {:induction false} RunKeepsInvariant(states: seq<Store>, actions: seq<Action>, i: nat)
    requires IsRun(states, actions) && RunActionsOK(states, actions) && i < |states|
    ensures StoreOK(states[i])
  {
    if i == 0 {
      InitialOK(states[0]);
    } else {
      RunKeepsInvariant(states, actions, i - 1);
      StepKeeps(states[i-1], actions[i-1], states[i]);
    }
  }

  /** Over whole runs: the invariant holds in every state if and only if every action is harmless. */
  lemma RunExact(states: seq<Store>, actions: seq<Action>)
    requires IsRun(states, actions)
    ensures (forall i :: 0 <= i < |states| ==> StoreOK(states[i])) <==> RunActionsOK(states, actions)
  {
    hide StoreOK, Step, ActionOK;
    if RunActionsOK(states, actions) {
      forall i | 0 <= i < |states| ensures StoreOK(states[i]) { RunKeepsInvariant(states, actions, i); }
    }
    if forall i :: 0 <= i < |states| ==> StoreOK(states[i]) {
      forall i | 0 <= i < |actions| ensures ActionOK(states[i], actions[i]) {
        assert StoreOK(states[i]) && StoreOK(states[i+1]);
        StepExact(states[i], actions[i], states[i+1]);
      }
    }
  }

  /** A snapshot taken at some point of a run and still live later. */
  ghost predicate LiveSince(states: seq<Store>, i: nat, j: nat, s: nat) {
    i <= j < |states| && forall k :: i <= k <= j ==> s in states[k].snapshots
  }

  /** The history only grows, so what a snapshot sees never changes. */
  lemma {:induction false} HistoryGrows(states: seq<Store>, actions: seq<Action>, i: nat, j: nat)
    requires IsRun(states, actions) && i <= j < |states|
    ensures states[i].history <= states[j].history
  {
    if i < j {
      HistoryGrows(states, actions, i, j - 1);
      assert Step(states[j-1], actions[j-1], states[j]);
    }
  }

  lemma {:induction false} PlainGetOfPrefix(h: History, h': History, user: UserKey, s: nat)
    requires h <= h' && s <= |h|
    ensures PlainGet(h', user, s) == PlainGet(h, user, s)
  {
    LatestOfPrefix(h, h', user, s);
  }

  lemma {:induction false} LatestOfPrefix(h: History, h': History, user: UserKey, s: nat)
    requires h <= h' && s <= |h|
    ensures LatestUpdate(h', user, s) == LatestUpdate(h, user, s)
  {
    if s > 0 && h[s-1].user != user { LatestOfPrefix(h, h', user, s - 1); }
  }

  /** Snapshot stability over whole runs: whatever is written, flushed, moved or compacted while a
      snapshot stays live, reading the store at it gives what reading the history gave when the
      snapshot was first there. `e` is the answer DBImpl::Get finds, if any. */
  lemma SnapshotReadsAreStable(states: seq<Store>, actions: seq<Action>, i: nat, j: nat, s: nat, user: UserKey,
                               answer: Option<Entry>)
    requires IsRun(states, actions) && RunActionsOK(states, actions) && LiveSince(states, i, j, s)
    requires match answer
      case Some(e) => NewestInStore(states[j], user, s, e)
      case None => NothingVisible(states[j], user, s)
    ensures s <= |states[i].history|
    ensures (match answer case Some(e) => ToOption(Answer(e)) case None => None) == PlainGet(states[i].history, user, s)
  {
    RunKeepsInvariant(states, actions, i);
    RunKeepsInvariant(states, actions, j);
    LiveAboveFloor(states[i], s);
    LiveAboveFloor(states[j], s);
    HistoryGrows(states, actions, i, j);
    PlainGetOfPrefix(states[i].history, states[j].history, user, s);
    match answer
    case Some(e) => NewestStoredIsLatest(states[j], user, s, e);
    case None => NothingStoredIsNothing(states[j], user, s);
  }

  lemma LiveAboveFloor(st: Store, s: nat)
    requires SnapshotsOK(st) && s in st.snapshots
    ensures Floor(st) <= s <= st.lastSequence
  {
    var i :| 0 <= i < |st.snapshots| && st.snapshots[i] == s;
    if i > 0 { assert st.snapshots[0] <= st.snapshots[i]; }
  }
}
