/** Where the boundary hypothesis of compactions comes for free: in runs that never take a snapshot no
    compaction keeps two entries of a user key, so no two files of a level >= 1 share one. */
module SnapshotFree {
  import opened Options
  import opened Runs
  import opened Versions
  import opened Builder
  import opened Picker
  import opened Compactions
  import opened CompactionWork
  import opened Install
  import opened Store

  /** No two adjacent files of a level >= 1 share a user key. */
  ghost predicate NoSplitKeys(v: Version) {
    |v| == NUM_LEVELS && forall l :: 1 <= l < NUM_LEVELS ==> UserDisjoint(v[l])
  }

  /** Two files of such a level share no user key at all. */
  lemma NoSharedUser(files: Level, f: File, g: File, x: Entry, y: Entry)
    requires AllWellFormed(files) && LevelDisjoint(files) && UserDisjoint(files)
    requires f in files && g in files && f != g && x in f.entries && y in g.entries
    ensures x.key.user != y.key.user
  {
    DisjointPair(files, f, g);
    EntryInBounds(f, x);
    EntryInBounds(g, y);
    assert !Continues(f, g) && !Continues(g, f);
  }

  /** No input entry has a user key of a file left behind in level+1. */
  lemma LeftoverHasNoInputUser(v: Version, c: Compaction, h: File, g: File, x: Entry, y: Entry)
    requires VersionOK(v) && NoSplitKeys(v) && PickOK(v, c)
    requires IsInput(c, h) && x in h.entries && g in v[c.level+1] && g !in c.inputs1 && y in g.entries
    ensures x.key.user != y.key.user
  {
    LevelFacts(v, c.level);
    LevelFacts(v, c.level + 1);
    assert UserDisjoint(v[c.level+1]) && (h in c.inputs0 ==> h in v[c.level]) && (h in c.inputs1 ==> h in v[c.level+1]);
    hide VersionOK, NoSplitKeys, UserDisjoint, PickOK, Sorted, Overlaps;
    if h in c.inputs0 {
      NextLevelAvoidsInputs0(v, c, h, g);
      EntryInBounds(h, x);
      EntryInBounds(g, y);
    } else {
      assert h in v[c.level+1];
      NoSharedUser(v[c.level+1], h, g, x, y);
    }
  }

  lemma BoundaryEntries(f: File)
    requires WellFormed(f)
    ensures f.entries[0] in f.entries && f.entries[|f.entries|-1] in f.entries
    ensures f.entries[0].key == f.smallest && f.entries[|f.entries|-1].key == f.largest
  {
  }

  /** An output does not continue, and is not continued by, a file left behind in level+1. */
  lemma OutputMeetsNoLeftover(v: Version, c: Compaction, outputs: Level, f: File, g: File)
    requires VersionOK(v) && NoSplitKeys(v) && PickOK(v, c) && GoodOutputs(v, c, outputs)
    requires f in outputs && g in v[c.level+1] && g !in c.inputs1
    ensures !Continues(f, g) && !Continues(g, f)
  {
    LevelFacts(v, c.level + 1);
    assert WellFormed(f);
    BoundaryEntries(f);
    BoundaryEntries(g);
    var first, last := f.entries[0], f.entries[|f.entries|-1];
    var h := OutputEntry(v, c, outputs, f, first);
    LeftoverHasNoInputUser(v, c, h, g, first, g.entries[|g.entries|-1]);
    var k := OutputEntry(v, c, outputs, f, last);
    LeftoverHasNoInputUser(v, c, k, g, last, g.entries[0]);
  }

  /** Without snapshots the kept stream has one entry per user key, so no output continues another. */
  lemma OutputsShareNoKey(v: Version, c: Compaction, floor: nat, first: nat, sizes: TableSizes, stream: Run, outputs: Level, f: File, g: File)
    requires CompactionOutputs(v, c, floor, first, sizes, stream, outputs) && f in outputs && g in outputs
    requires forall e :: e in stream ==> e.key.sequence <= floor
    ensures !Continues(f, g)
  {
    if Continues(f, g) {
      BoundaryEntries(f);
      BoundaryEntries(g);
      var x, y := f.entries[|f.entries|-1], g.entries[0];
      assert InFiles(outputs, x) && InFiles(outputs, y);
      ConcatElements(outputs, x);
      ConcatElements(outputs, y);
      KeptIsInput(stream, floor, v, c.level, x);
      KeptIsInput(stream, floor, v, c.level, y);
      var i :| 0 <= i < |stream| && stream[i] == x;
      var j :| 0 <= j < |stream| && stream[j] == y;
      assert i < j;
      OlderIsDropped(stream, i, j, floor, v, c.level);
      KeptIfNotDropped(stream, |stream|, j, floor, v, c.level);
      assert false;
    }
  }

  lemma InstallKeepsUserDisjoint(v: Version, c: Compaction, outputs: Level, v': Version)
    requires NoSplitKeys(v) && PickOK(v, c) && Installed(v, c, outputs, v')
    requires UserDisjoint(outputs)
    requires forall f, g :: f in outputs && g in v[c.level+1] && g !in c.inputs1 ==> !Continues(f, g) && !Continues(g, f)
    ensures NoSplitKeys(v')
  {
    assert c.level + 1 < NUM_LEVELS;
    hide PickOK, Continues, LevelSorted;
    forall l, f, g | 1 <= l < NUM_LEVELS && f in v'[l] && g in v'[l] && f != g ensures !Continues(f, g) {
      assert AfterInstall(v, c, outputs, l, f) && AfterInstall(v, c, outputs, l, g);
      assert UserDisjoint(v[l]);
    }
  }

  lemma CompactKeepsUserDisjoint(v: Version, c: Compaction, floor: nat, first: nat, sizes: TableSizes, stream: Run, outputs: Level, v': Version)
    requires VersionOK(v) && NoSplitKeys(v) && PickOK(v, c) && GoodOutputs(v, c, outputs)
    requires CompactionOutputs(v, c, floor, first, sizes, stream, outputs) && Installed(v, c, outputs, v')
    requires forall e :: e in stream ==> e.key.sequence <= floor
    ensures NoSplitKeys(v')
  {
    hide VersionOK, PickOK, CompactionOutputs, Continues, GoodOutputs, Installed, NoSplitKeys;
    forall f, g | f in outputs && g in outputs && f != g ensures !Continues(f, g) {
      OutputsShareNoKey(v, c, floor, first, sizes, stream, outputs, f, g);
    }
    LevelInRange(v, c);
    forall f, g | f in outputs && g in v[c.level+1] && g !in c.inputs1 ensures !Continues(f, g) && !Continues(g, f) {
      OutputMeetsNoLeftover(v, c, outputs, f, g);
    }
    InstallKeepsUserDisjoint(v, c, outputs, v');
  }

  lemma LevelInRange(v: Version, c: Compaction)
    requires PickOK(v, c)
    ensures |v| == NUM_LEVELS && c.level + 1 < NUM_LEVELS
  {
  }

  lemma StreamIsPublished(st: Store, c: Compaction, stream: Run)
    requires StoreOK(st) && PickOK(st.version, c) && InputStream(c, stream)
    ensures forall e :: e in stream ==> e.key.sequence <= st.lastSequence
  {
    forall e | e in stream ensures e.key.sequence <= st.lastSequence {
      assert InInputs(c, e);
      var h := InputFileOf(st.version, c, e);
    }
  }

  lemma OneFileDisjoint(files: Level)
    requires |files| == 1
    ensures UserDisjoint(files)
  {
  }

  lemma MoveKeepsUserDisjoint(v: Version, c: Compaction, v': Version)
    requires VersionOK(v) && NoSplitKeys(v) && PickOK(v, c) && GoodOutputs(v, c, c.inputs0)
    requires |c.inputs0| == 1 && Installed(v, c, c.inputs0, v')
    ensures NoSplitKeys(v')
  {
    hide VersionOK, PickOK, Continues, GoodOutputs, Installed, NoSplitKeys, UserDisjoint;
    OneFileDisjoint(c.inputs0);
    LevelInRange(v, c);
    forall f, g | f in c.inputs0 && g in v[c.level+1] && g !in c.inputs1 ensures !Continues(f, g) && !Continues(g, f) {
      OutputMeetsNoLeftover(v, c, c.inputs0, f, g);
    }
    InstallKeepsUserDisjoint(v, c, c.inputs0, v');
  }

  lemma DumpKeepsUserDisjoint(st: Store, level: nat, f: File, st': Store)
    requires StoreOK(st) && NoSplitKeys(st.version) && Step(st, DumpMemTable(level, f), st')
    ensures NoSplitKeys(st'.version)
  {
    var v, v' := st.version, st'.version;
    DumpMeaning(v, level, f, v');
    MemTableLevelIsOK(v, level, f);
    assert VersionOK(v);
    hide StoreOK, Step, Continues, VersionOK;
    forall l, g, h | 1 <= l < NUM_LEVELS && g in v'[l] && h in v'[l] && g != h ensures !Continues(g, h) {
      DumpContinuesNothing(v, level, f, l, g, h);
    }
  }

  lemma DumpContinuesNothing(v: Version, level: nat, f: File, l: nat, g: File, h: File)
    requires VersionOK(v) && WellFormed(f)
    requires NoSplitKeys(v) && DumpLevelOK(v, level, f) && 1 <= l < NUM_LEVELS && g != h
    requires AfterDump(v, level, f, l, g) && AfterDump(v, level, f, l, h)
    ensures !Continues(g, h)
  {
    LevelFacts(v, l);
    assert WellFormed(g) && WellFormed(h);
    EntryInBounds(g, g.entries[0]);
    EntryInBounds(h, h.entries[0]);
    if g in v[l] && h in v[l] { assert UserDisjoint(v[l]); }
    else if g in v[l] { assert !Overlaps(g, Some(f.smallest.user), Some(f.largest.user)); }
    else { assert !Overlaps(h, Some(f.smallest.user), Some(f.largest.user)); }
  }

  lemma CompactStep(st: Store, c: Compaction, manual: bool, sizes: TableSizes, stream: Run, outputs: Level, st': Store)
    requires StoreOK(st) && NoSplitKeys(st.version) && st.snapshots == []
    requires Step(st, Compact(c, manual, sizes, stream, outputs), st')
    ensures PickOK(st.version, c) && MergeOK(st, c) && NoSplitKeys(st'.version)
  {
    hide HasGrandparents, IsTrivialMove, MergeOK, BoundaryOK;
    EditInstalls(st.version, c, outputs, st'.version);
    CompactOutputsGood(st, c, sizes, stream, outputs);
    StreamIsPublished(st, c, stream);
    UserDisjointSuffices(st.version, c);
    BoundarySuffices(st, c);
    CompactKeepsUserDisjoint(st.version, c, Floor(st), st.nextFile, sizes, stream, outputs, st'.version);
  }

  lemma MoveStep(st: Store, c: Compaction, st': Store)
    requires StoreOK(st) && NoSplitKeys(st.version) && Step(st, Move(c), st')
    ensures PickOK(st.version, c) && BoundaryOK(st.version, c) && NoSplitKeys(st'.version)
  {
    EditInstalls(st.version, c, c.inputs0, st'.version);
    MoveOutputsGood(st.version, c);
    UserDisjointSuffices(st.version, c);
    MoveKeepsUserDisjoint(st.version, c, st'.version);
  }

  lemma StepKeepsUserDisjoint(st: Store, a: Action, st': Store)
    requires StoreOK(st) && NoSplitKeys(st.version) && st.snapshots == [] && a != TakeSnapshot && Step(st, a, st')
    ensures ActionOK(st, a)
    ensures NoSplitKeys(st'.version) && st'.snapshots == []
  {
    hide StoreOK, PickOK, CompactionOutputs, Applied, BoundaryOK, MergeOK, IsMemTableLevel, NoSplitKeys;
    match a
    case Compact(c, manual, sizes, stream, outputs) => CompactStep(st, c, manual, sizes, stream, outputs, st');
    case Move(c) => MoveStep(st, c, st');
    case DumpMemTable(level, f) => DumpKeepsUserDisjoint(st, level, f, st');
    case _ =>
  }

  /** A run that never takes a snapshot keeps the store invariant with no hypothesis on what the
      pickers choose or where tables are cut. */
  lemma {:induction false} SnapshotFreeRun(states: seq<Store>, actions: seq<Action>, i: nat)
    requires IsRun(states, actions) && i < |states|
    requires forall k :: 0 <= k < |actions| ==> actions[k] != TakeSnapshot
    ensures StoreOK(states[i]) && NoSplitKeys(states[i].version) && states[i].snapshots == []
  {
    hide StoreOK, Step;
    if i == 0 {
      InitialOK(states[0]);
      EmptyNoSplit(states[0]);
    } else {
      SnapshotFreeRun(states, actions, i - 1);
      StepKeepsUserDisjoint(states[i-1], actions[i-1], states[i]);
      StepKeeps(states[i-1], actions[i-1], states[i]);
    }
  }

  lemma EmptyNoSplit(st: Store)
    requires Initial(st)
    ensures NoSplitKeys(st.version)
  {
    forall l | 0 <= l < NUM_LEVELS ensures NO_FILES[l] == [] {
    }
  }

  /** Without snapshots, reads of the latest state give the newest write, in every reachable state. */
  lemma SnapshotFreeReads(states: seq<Store>, actions: seq<Action>, i: nat, user: UserKey, answer: Option<Entry>)
    requires IsRun(states, actions) && i < |states|
    requires forall k :: 0 <= k < |actions| ==> actions[k] != TakeSnapshot
    requires match answer
      case Some(e) => NewestInStore(states[i], user, states[i].lastSequence, e)
      case None => NothingVisible(states[i], user, states[i].lastSequence)
    ensures states[i].lastSequence <= |states[i].history|
    ensures (match answer case Some(e) => ToOption(Answer(e)) case None => None)
            == PlainGet(states[i].history, user, states[i].lastSequence)
  {
    SnapshotFreeRun(states, actions, i);
    match answer
    case Some(e) => NewestStoredIsLatest(states[i], user, states[i].lastSequence, e);
    case None => NothingStoredIsNothing(states[i], user, states[i].lastSequence);
  }
}
