/** The database object (leveldb/db/db_impl.cc): each method performs the steps of the store's state
    machine on its fields, and reads answer from the plain history. Mutex regions are atomic. */
module DbImpl {
  import opened Options
  import opened Slices
  import opened Runs
  import opened Merger
  import opened Versions
  import opened Builder
  import opened VersionSets
  import opened Picker
  import opened Compactions
  import opened CompactionWork
  import opened Install
  import opened Store
  import opened ReadExact
  import DbIter

  // ---------------------------------------------------------------- file numbers over time

  /** File numbers are used once and files only move down: no version ever had the number of a current
      file in a deeper level. Keeps FreshFiles true of every edit. */
  ghost predicate NumbersDescend(versions: seq<Version>, v: Version, nextFile: nat) {
    && |v| == NUM_LEVELS
    && (forall w: Version, l: nat, g: File :: w in versions && l < |w| && g in w[l] ==> g.number < nextFile)
    && (forall w: Version, l: nat, g: File, m: nat, f: File ::
          w in versions && l < |w| && g in w[l] && m < NUM_LEVELS && f in v[m] && f.number == g.number ==> l <= m)
  }

  /** Files of an edit with new numbers. */
  lemma NewNumbersFresh(versions: seq<Version>, v: Version, nextFile: nat, edit: VersionEdit)
    requires NumbersDescend(versions, v, nextFile)
    requires forall n :: n in edit.newFiles ==> n.level < NUM_LEVELS && WellFormed(n.file) && n.file.number >= nextFile
    requires forall m, n :: m in edit.newFiles && n in edit.newFiles && m != n ==> m.file.number != n.file.number
    ensures FreshFiles(versions, edit)
  {
  }

  lemma NewNumbersDescend(versions: seq<Version>, v: Version, nextFile: nat, v': Version, nextFile': nat)
    requires NumbersDescend(versions, v, nextFile) && VersionOK(v') && nextFile <= nextFile'
    requires NumbersBelow(v', nextFile')
    requires forall m, f :: 0 <= m < NUM_LEVELS && f in v'[m] ==> f.number >= nextFile || f in v[m]
    ensures NumbersDescend(versions + [v'], v', nextFile')
  {
    forall w: Version, l: nat, g: File, m: nat, f: File | w in versions + [v'] && l < |w| && g in w[l] &&
        m < NUM_LEVELS && f in v'[m] && f.number == g.number ensures l <= m
    {
      if w == v' && l > m { Ordered(v', m, l, f, g); }
    }
  }

  // ---------------------------------------------------------------- placing a memtable

  lemma VersionSize(v: Version)
    requires VersionOK(v)
    ensures |v| == NUM_LEVELS
  {
  }

  method PickLevelForMemTableOutput(v: Version, smallest: UserKey, largest: UserKey) returns (level: nat)
    requires VersionOK(v)
    ensures IsMemTableLevel(v, smallest, largest, level)
  {
    hide VersionOK, LevelSorted, LevelDisjoint, ClosedRange, LeastCover, LeastSelection, AllForward, TotalFileSize;
    VersionSize(v);
    level := 0;
    LevelFacts(v, 0);
    var overlap := SomeFileOverlapsRange(false, v[0], Some(smallest), Some(largest));
    if !overlap {
      while level < MAX_MEM_COMPACT_LEVEL
        invariant level <= MAX_MEM_COMPACT_LEVEL
        invariant forall l :: 0 <= l < level ==> MayDescend(v, l, smallest, largest)
      {
        LevelFacts(v, level + 1);
        overlap := SomeFileOverlapsRange(true, v[level+1], Some(smallest), Some(largest));
        if overlap {
          break;
        }
        if level + 2 < NUM_LEVELS {
          // Not above a file that overlaps too many grandparent bytes
          var overlaps, _, _ := GetOverlappingInputs(level + 2, v[level+2], Some(smallest), Some(largest));
          if TotalFileSize(overlaps) > MAX_GRANDPARENT_OVERLAP_BYTES {
            break;
          }
        }
        level := level + 1;
      }
    }
  }

  /** BuildTable: the table file of a memtable. */
  function BuildTable(number: nat, size: nat, run: Run): File
    requires run != []
  {
    File(number, size, run[0].key, run[|run|-1].key, run)
  }

  // ---------------------------------------------------------------- edits of the three kinds

  lemma DumpEditReady(st: Store, versions: seq<Version>, level: nat, f: File)
    requires StoreOK(st) && NumbersDescend(versions, st.version, st.nextFile)
    requires st.imm.Some? && WellFormed(f) && f.entries == st.imm.value && f.number == st.nextFile
    requires IsMemTableLevel(st.version, f.smallest.user, f.largest.user, level)
    ensures EditInRange(DumpEdit(level, f)) && FreshFiles(versions, DumpEdit(level, f))
    ensures StaysApart(st.version, DumpEdit(level, f))
  {
    hide VersionOK, FreshFiles, NumbersDescend, IsMemTableLevel, WellFormed, NewerThanFiles, StaysApart, SnapshotsOK;
    MemTableLevelIsOK(st.version, level, f);
    assert DumpLevelOK(st.version, level, f) && VersionOK(st.version) && NewerThanFiles(f.entries, st.version);
    hide StoreOK;
    NewNumbersFresh(versions, st.version, st.nextFile, DumpEdit(level, f));
    DumpStaysApart(st.version, level, f);
  }

  lemma DumpStaysApart(v: Version, level: nat, f: File)
    requires VersionOK(v) && WellFormed(f) && DumpLevelOK(v, level, f) && NewerThanFiles(f.entries, v)
    ensures StaysApart(v, DumpEdit(level, f))
  {
    var edit := DumpEdit(level, f);
    assert |v| == NUM_LEVELS;
    hide VersionOK, DumpLevelOK, WellFormed, NewerThanFiles;
    forall l, g, h | 1 <= l < NUM_LEVELS && InEdited(v[l], edit, l, g) && InEdited(v[l], edit, l, h)
      ensures Apart(g, h)
    {
      LevelFacts(v, l);
      if g in v[l] && h in v[l] { if g != h { DisjointPair(v[l], g, h); } }
      else if g in v[l] { DumpFits(v, level, f, l, g); }
      else if h in v[l] { DumpFits(v, level, f, l, h); }
    }
  }

  lemma CompactionEditApart(v: Version, c: Compaction, outputs: Level)
    requires VersionOK(v) && PickOK(v, c) && GoodOutputs(v, c, outputs)
    ensures EditInRange(CompactionEdit(c, outputs)) && StaysApart(v, CompactionEdit(c, outputs))
  {
    var edit := CompactionEdit(c, outputs);
    LevelFacts(v, c.level);
    LevelFacts(v, c.level + 1);
    assert |v| == NUM_LEVELS && c.level + 1 < NUM_LEVELS;
    hide VersionOK, PickOK, GoodOutputs, AfterInstall, InEdited;
    forall l, f, g | 1 <= l < NUM_LEVELS && InEdited(v[l], edit, l, f) && InEdited(v[l], edit, l, g)
      ensures Apart(f, g)
    {
      EditMeaning(v, c, outputs, l, f);
      EditMeaning(v, c, outputs, l, g);
      StaysApartInLevel(v, c, outputs, l, f, g);
    }
  }

  /** Outputs with consecutive new numbers make a fresh edit. */
  lemma OutputsFresh(versions: seq<Version>, v: Version, nextFile: nat, c: Compaction, outputs: Level)
    requires NumbersDescend(versions, v, nextFile) && c.level + 1 < NUM_LEVELS && AllWellFormed(outputs)
    requires forall i :: 0 <= i < |outputs| ==> outputs[i].number == nextFile + i
    ensures FreshFiles(versions, CompactionEdit(c, outputs))
  {
    var edit := CompactionEdit(c, outputs);
    hide WellFormed, NumbersDescend;
    forall n | n in edit.newFiles
      ensures n.level < NUM_LEVELS && WellFormed(n.file) && n.file.number >= nextFile
    {
      var i :| 0 <= i < |edit.newFiles| && edit.newFiles[i] == n;
      assert outputs[i] in outputs;
    }
    forall m, n | m in edit.newFiles && n in edit.newFiles && m != n ensures m.file.number != n.file.number {
      var i :| 0 <= i < |edit.newFiles| && edit.newFiles[i] == m;
      var j :| 0 <= j < |edit.newFiles| && edit.newFiles[j] == n;
      assert outputs[i].number == nextFile + i && outputs[j].number == nextFile + j;
    }
    NewNumbersFresh(versions, v, nextFile, edit);
  }

  lemma CompactEditReady(st: Store, versions: seq<Version>, c: Compaction, sizes: TableSizes, stream: Run, outputs: Level)
    requires StoreOK(st) && NumbersDescend(versions, st.version, st.nextFile) && PickOK(st.version, c)
    requires CompactionOutputs(st.version, c, Floor(st), st.nextFile, sizes, stream, outputs)
    ensures EditInRange(CompactionEdit(c, outputs)) && FreshFiles(versions, CompactionEdit(c, outputs))
    ensures StaysApart(st.version, CompactionEdit(c, outputs))
  {
    CompactOutputsGood(st, c, sizes, stream, outputs);
    OutputsFresh(versions, st.version, st.nextFile, c, outputs);
    CompactionEditApart(st.version, c, outputs);
  }

  /** A moved file is new to the level it moves to. */
  lemma MovedIsFresh(versions: seq<Version>, v: Version, nextFile: nat, c: Compaction, f: File)
    requires NumbersDescend(versions, v, nextFile) && c.level + 1 < NUM_LEVELS
    requires WellFormed(f) && f in v[c.level] && c.inputs0 == [f]
    ensures FreshFiles(versions, CompactionEdit(c, c.inputs0))
  {
    assert CompactionEdit(c, c.inputs0).newFiles == [LevelFile(c.level + 1, f)];
    hide WellFormed;
    forall w: Version, g: File | w in versions && |w| == NUM_LEVELS && g in w[c.level+1] ensures g.number != f.number {
      var l: nat, m: nat := c.level + 1, c.level;
      assert l < |w| && g in w[l] && f in v[m];
    }
  }

  lemma MoveEditReady(st: Store, versions: seq<Version>, c: Compaction)
    requires StoreOK(st) && NumbersDescend(versions, st.version, st.nextFile)
    requires PickOK(st.version, c) && IsTrivialMove(c)
    ensures EditInRange(CompactionEdit(c, c.inputs0)) && FreshFiles(versions, CompactionEdit(c, c.inputs0))
    ensures StaysApart(st.version, CompactionEdit(c, c.inputs0))
  {
    hide StoreOK, VersionOK, NumbersDescend, FreshFiles, StaysApart, WellFormed, GoodOutputs, CompactionEdit, PickOK;
    StoreFacts(st);
    var v, f := st.version, OnlyInput(st.version, c);
    LevelFacts(v, c.level);
    MoveOutputsGood(v, c);
    CompactionEditApart(v, c, c.inputs0);
    MovedIsFresh(versions, v, st.nextFile, c, f);
  }

  /** The one file that a trivial move moves. */
  ghost function OnlyInput(v: Version, c: Compaction): (f: File)
    requires PickOK(v, c) && IsTrivialMove(c)
    ensures c.level + 1 < NUM_LEVELS == |v| && c.inputs0 == [f] && f in c.inputs0 && f in v[c.level]
  {
    c.inputs0[0]
  }

  /** After the edit, numbers still descend. */
  lemma InstallDescends(v: Version, nextFile: nat, versions: seq<Version>, c: Compaction, outputs: Level,
                        v': Version, nextFile': nat)
    requires NumbersDescend(versions, v, nextFile) && PickOK(v, c)
    requires VersionOK(v') && NumbersBelow(v', nextFile')
    requires Installed(v, c, outputs, v') && nextFile <= nextFile'
    requires (forall f :: f in outputs ==> f.number >= nextFile) || outputs == c.inputs0
    ensures NumbersDescend(versions + [v'], v', nextFile')
  {
    hide PickOK, VersionOK, NumbersDescend, Installed, NumbersBelow, LevelSorted, AfterInstall;
    AllBelow(v, nextFile, versions, v', nextFile');
    forall w: Version, l: nat, g: File, m: nat, f: File | w in versions + [v'] && l < |w| && g in w[l] &&
        m < NUM_LEVELS && f in v'[m] && f.number == g.number ensures l <= m
    {
      if w in versions {
        FileAfterInstall(v, c, outputs, v', m, f);
        OldLevel(versions, v, nextFile, c, outputs, w, l, g, m, f);
      } else if l > m {
        Ordered(v', m, l, f, g);
      }
    }
    NumbersDescendIs(versions + [v'], v', nextFile');
  }

  lemma AllBelow(v: Version, nextFile: nat, versions: seq<Version>, v': Version, nextFile': nat)
    requires NumbersDescend(versions, v, nextFile) && nextFile <= nextFile'
    requires VersionOK(v') && NumbersBelow(v', nextFile')
    ensures |v'| == NUM_LEVELS
    ensures forall w: Version, l: nat, g: File :: w in versions + [v'] && l < |w| && g in w[l] ==> g.number < nextFile'
  {
  }

  lemma NumbersDescendIs(versions: seq<Version>, v: Version, nextFile: nat)
    requires |v| == NUM_LEVELS
    requires forall w: Version, l: nat, g: File :: w in versions && l < |w| && g in w[l] ==> g.number < nextFile
    requires forall w: Version, l: nat, g: File, m: nat, f: File ::
               w in versions && l < |w| && g in w[l] && m < NUM_LEVELS && f in v[m] && f.number == g.number ==> l <= m
    ensures NumbersDescend(versions, v, nextFile)
  {
  }

  lemma FileAfterInstall(v: Version, c: Compaction, outputs: Level, v': Version, m: nat, f: File)
    requires PickOK(v, c) && Installed(v, c, outputs, v') && m < NUM_LEVELS && f in v'[m]
    ensures AfterInstall(v, c, outputs, m, f)
  {
  }

  lemma OldLevel(versions: seq<Version>, v: Version, nextFile: nat, c: Compaction, outputs: Level,
                 w: Version, l: nat, g: File, m: nat, f: File)
    requires NumbersDescend(versions, v, nextFile) && PickOK(v, c)
    requires (forall f :: f in outputs ==> f.number >= nextFile) || outputs == c.inputs0
    requires w in versions && l < |w| && g in w[l] && m < NUM_LEVELS && f.number == g.number
    requires AfterInstall(v, c, outputs, m, f)
    ensures l <= m
  {
    if f !in v[m] {
      assert f in outputs && g.number < nextFile;
      assert f in c.inputs0 && f in v[c.level] && m == c.level + 1;
    }
  }

  // ---------------------------------------------------------------- the object

  class DB {
    const versions: VersionSet
    var mem: Run
    var imm: Option<Run>
    var lastSequence: nat
    var snapshots: seq<nat>          // the snapshot list, oldest first
    var nextFile: nat
    ghost var history: History

    /** The state as the state machine sees it. */
    ghost function State(): Store
      reads this, versions
    {
      Store(mem, imm, versions.current, lastSequence, snapshots, nextFile, history)
    }

    ghost predicate Valid()
      reads this, versions
    {
      StoreOK(State()) && versions.Valid() && NumbersDescend(versions.versions, versions.current, nextFile)
    }

    /** The picked compaction leaves nothing behind that does harm; see Store.StepExact. */
    ghost predicate LeavesNoHarm(c: Compaction, manual: bool)
      reads this, versions
    {
      PickOK(versions.current, c) &&
      if !manual && IsTrivialMove(c) then BoundaryOK(versions.current, c) else MergeOK(State(), c)
    }

    /** No reader will notice it; see ReadExact. */
    ghost predicate Unnoticed(c: Compaction, manual: bool)
      reads this, versions
    {
      PickOK(versions.current, c) && ReadsKeep(State(), c, manual || !IsTrivialMove(c))
    }

    constructor ()
      ensures Valid() && fresh(versions) && Initial(State())
    {
      hide StoreOK, VersionOK, Stored, NumbersDescend, VersionSet.Valid;
      EmptyStored();
      versions := new VersionSet(NO_FILES, 0);
      mem, imm, lastSequence, snapshots, nextFile, history := [], None, 0, [], 2, [];
      new;
      InitialOK(State());
    }

    /** MemTable::Add for one update of a batch. */
    method InsertUpdate(u: Update, sequence: nat)
      requires Valid() && sequence == |history| + 1 < MAX_SEQUENCE
      modifies this`mem, this`history
      ensures Valid() && Step(old(State()), AppendUpdate(u), State()) && history == old(history) + [u]
    {
      ghost var before := State();
      history := history + [u];
      mem := InsertEntry(mem, Entry(InternalKey(u.user, sequence, u.kind), if u.kind == Value then u.value else []));
      StepKeeps(before, AppendUpdate(u), State());
    }

    /** SetLastSequence after the inserts. */
    method SetLastSequence(sequence: nat)
      requires Valid() && sequence == |history|
      modifies this`lastSequence
      ensures Valid() && Step(old(State()), Publish, State()) && lastSequence == sequence
    {
      ghost var before := State();
      lastSequence := sequence;
      StepKeeps(before, Publish, State());
    }

    /** The part of Write that a leader does for its group: insert all updates, then publish them by
        moving the last sequence number. */
    method WriteGroup(updates: seq<Update>)
      requires Valid() && lastSequence == |history| && |history| + |updates| < MAX_SEQUENCE
      modifies this
      ensures Valid() && history == old(history) + updates && lastSequence == |history|
      ensures snapshots == old(snapshots)
    {
      hide DB.Valid, Step;
      var sequence := lastSequence;
      assert old(history) + updates[..0] == old(history);
      for i := 0 to |updates|
        invariant Valid() && history == old(history) + updates[..i] && sequence == |history|
        invariant snapshots == old(snapshots)
      {
        sequence := sequence + 1;
        InsertUpdate(updates[i], sequence);
        assert old(history) + updates[..i+1] == (old(history) + updates[..i]) + [updates[i]];
      }
      assert updates[..|updates|] == updates;
      SetLastSequence(sequence);
    }

    /** The memtable switch of MakeRoomForWrite; false when it has to wait for the dump. */
    method SwitchMemTable() returns (done: bool)
      requires Valid() && lastSequence == |history|
      modifies this`mem, this`imm
      ensures Valid() && done == old(imm).None?
      ensures if done then Step(old(State()), Action.SwitchMemTable, State()) else State() == old(State())
    {
      if imm.Some? {
        return false;
      }
      ghost var before := State();
      imm := Some(mem);
      mem := [];
      StepKeeps(before, Action.SwitchMemTable, State());
      done := true;
    }

    /** CompactMemTable: write the immutable memtable as a table and install it. */
    method CompactMemTable(size: nat) returns (ghost a: Action)
      requires Valid() && imm.Some?
      modifies this, versions
      ensures Valid() && imm == None && history == old(history) && snapshots == old(snapshots)
      ensures Step(old(State()), a, State())
    {
      hide StoreOK;
      if imm.value == [] {
        // file_size == 0: no table is added
        ghost var before := State();
        imm := None;
        nextFile := nextFile + 1;
        a := DropEmptyMemTable;
        StepKeeps(before, a, State());
        NewNumbersDescendSame(versions.versions, versions.current, before.nextFile, nextFile);
      } else {
        a := WriteLevel0Table(size);
      }
    }

    /** WriteLevel0Table and the installation of its edit. */
    method WriteLevel0Table(size: nat) returns (ghost a: Action)
      requires Valid() && imm.Some? && imm.value != []
      modifies this, versions
      ensures Valid() && imm == None && history == old(history) && snapshots == old(snapshots)
      ensures Step(old(State()), a, State())
    {
      hide StoreOK, VersionOK, NumbersDescend, WellFormed, VersionSet.Valid, FreshFiles, StaysApart, Step, Applied;
      hide IsMemTableLevel, EditInRange;
      ghost var before, olds := State(), versions.versions;
      StoreFacts(before);
      var f := BuildTable(nextFile, size, imm.value);
      MemTableWellFormed(before, f);
      var level := PickLevelForMemTableOutput(versions.current, f.smallest.user, f.largest.user);
      a := DumpMemTable(level, f);
      DumpEditReady(before, olds, level, f);
      versions.LogAndApply(VersionEdit(None, {}, [LevelFile(level, f)]));
      imm := None;
      nextFile := nextFile + 1;
      DumpInstalled(before, olds, level, f, State());
    }

    /** BackgroundCompaction for picked inputs: move the file down, or merge and install. The invariant holds
        afterwards if and only if the pick leaves nothing harmful behind, and all readers read right if and only
        if none will notice. */
    method BackgroundCompaction(c: Compaction, manual: bool, sizes: TableSizes) returns (ghost a: Action)
      requires Valid() && PickOK(versions.current, c) && HasGrandparents(versions.current, c)
      modifies this, versions
      ensures history == old(history) && snapshots == old(snapshots) && versions.Valid()
      ensures if !manual && IsTrivialMove(c) then a == Move(c) else a.Compact? && a.c == c && a.manual == manual
      ensures Step(old(State()), a, State())
      ensures Valid() <==> old(LeavesNoHarm(c, manual))
      ensures Readable(State()) && (ReadsRight(State()) <==> old(Unnoticed(c, manual)))
    {
      hide DB.Valid, Step, BoundaryOK, MergeOK, ReadsKeep, ReadsRight, Readable, HasGrandparents;
      ghost var before := State();
      assert StoreOK(before) by { ValidStore(); }
      if !manual && IsTrivialMove(c) {
        MoveFile(c);
        a := Move(c);
      } else {
        a := MergeFiles(c, manual, sizes);
      }
      CompactionReads(before, a, State());
    }

    lemma ValidStore()
      requires Valid()
      ensures StoreOK(State())
    {
    }

    method MoveFile(c: Compaction)
      requires Valid() && PickOK(versions.current, c) && HasGrandparents(versions.current, c) && IsTrivialMove(c)
      modifies versions
      ensures versions.Valid() && Step(old(State()), Move(c), State())
      ensures Valid() <==> old(LeavesNoHarm(c, false))
    {
      hide StoreOK, VersionOK, NumbersDescend, VersionSet.Valid, FreshFiles, StaysApart, Step, Applied, PickOK;
      hide BoundaryOK, CompactionEdit, EditInRange, HasGrandparents, MergeOK;
      ghost var before, olds := State(), versions.versions;
      StoreFacts(before);
      var f := c.inputs0[0];
      MoveEditForm(c, f);
      MoveEditReady(before, olds, c);
      versions.LogAndApply(VersionEdit(None, {LevelNumber(c.level, f.number)}, [LevelFile(c.level + 1, f)]));
      MoveInstalled(before, olds, c, State());
    }

    method MergeFiles(c: Compaction, manual: bool, sizes: TableSizes) returns (ghost a: Action)
      requires Valid() && PickOK(versions.current, c) && HasGrandparents(versions.current, c)
      requires manual || !IsTrivialMove(c)
      modifies this`nextFile, versions
      ensures versions.Valid() && Step(old(State()), a, State()) && a.Compact? && a.c == c && a.manual == manual
      ensures Valid() <==> old(LeavesNoHarm(c, manual))
    {
      hide StoreOK, VersionOK, NumbersDescend, VersionSet.Valid, FreshFiles, StaysApart, Step, Applied, PickOK;
      hide BoundaryOK, CompactionEdit, EditInRange, CompactionOutputs, HasGrandparents, MergeOK;
      ghost var before, olds := State(), versions.versions;
      StoreFacts(before);
      FloorInRange(before);
      var smallest := if snapshots == [] then lastSequence else snapshots[0];
      var outputs;
      ghost var stream;
      outputs, stream := DoCompactionWork(versions.current, c, smallest, nextFile, sizes);
      a := Compact(c, manual, sizes, stream, outputs);
      CompactEditReady(before, olds, c, sizes, stream, outputs);
      InstallCompactionResults(c, outputs);
      nextFile := nextFile + |outputs|;
      CompactInstalled(before, olds, c, manual, sizes, stream, outputs, State());
    }

    method InstallCompactionResults(c: Compaction, outputs: Level)
      requires versions.Valid() && EditInRange(CompactionEdit(c, outputs))
      requires FreshFiles(versions.versions, CompactionEdit(c, outputs))
      requires StaysApart(versions.current, CompactionEdit(c, outputs))
      modifies versions
      ensures versions.Valid() && Applied(old(versions.current), CompactionEdit(c, outputs), versions.current)
      ensures versions.versions == old(versions.versions) + [versions.current]
    {
      var deleted: set<LevelNumber> := {};
      for i := 0 to |c.inputs0|
        invariant deleted == set f | f in c.inputs0[..i] :: LevelNumber(c.level, f.number)
      {
        assert c.inputs0[..i+1] == c.inputs0[..i] + [c.inputs0[i]];
        deleted := deleted + {LevelNumber(c.level, c.inputs0[i].number)};
      }
      assert c.inputs0[..|c.inputs0|] == c.inputs0;
      ghost var first := deleted;
      for i := 0 to |c.inputs1|
        invariant deleted == first + set f | f in c.inputs1[..i] :: LevelNumber(c.level + 1, f.number)
      {
        assert c.inputs1[..i+1] == c.inputs1[..i] + [c.inputs1[i]];
        deleted := deleted + {LevelNumber(c.level + 1, c.inputs1[i].number)};
      }
      assert c.inputs1[..|c.inputs1|] == c.inputs1;
      var added := seq(|outputs|, i requires 0 <= i < |outputs| => LevelFile(c.level + 1, outputs[i]));
      assert VersionEdit(None, deleted, added) == CompactionEdit(c, outputs);
      versions.LogAndApply(VersionEdit(None, deleted, added));
    }

    method GetSnapshot() returns (s: nat)
      requires Valid()
      modifies this`snapshots
      ensures Valid() && s == lastSequence && s in snapshots && Step(old(State()), TakeSnapshot, State())
    {
      ghost var before := State();
      s := lastSequence;
      snapshots := snapshots + [s];
      StepKeeps(before, TakeSnapshot, State());
    }

    method ReleaseSnapshot(index: nat)
      requires Valid() && index < |snapshots|
      modifies this`snapshots
      ensures Valid() && Step(old(State()), Action.ReleaseSnapshot(index), State())
    {
      ghost var before := State();
      snapshots := snapshots[..index] + snapshots[index+1..];
      StepKeeps(before, Action.ReleaseSnapshot(index), State());
    }

    /** Get at a live snapshot, or at the latest sequence number: the newest entry of the first place that has
        one, and, as long as the invariant holds, the newest write of the history. */
    method Get(user: UserKey, snapshot: Option<nat>) returns (r: Option<Bytes>)
      requires Readable(State()) && (snapshot.Some? ==> snapshot.value in snapshots)
      ensures r == StoreGet(State(), user, if snapshot.Some? then snapshot.value else lastSequence)
      ensures Valid() ==> (if snapshot.Some? then snapshot.value else lastSequence) <= |history|
      ensures Valid() ==> r == PlainGet(history, user, if snapshot.Some? then snapshot.value else lastSequence)
    {
      var s := if snapshot.Some? then snapshot.value else lastSequence;
      ghost var st := State();
      assert Valid() ==> Floor(st) <= s <= |history| && StoreGet(st, user, s) == PlainGet(history, user, s) by {
        if Valid() { ValidReads(user, s); }
      }
      assert LevelsOK(st.version);
      hide StoreGet, PlainGet, Readable, RunGet, LevelsOK;
      var found := RunGet(mem, user, s);
      MemReads(st, user, s);
      if found == NotFound {
        ImmReads(st, user, s);
        if imm.Some? {
          found := RunGet(imm.value, user, s);
        }
        if found == NotFound {
          NoImm(st, user, s);
          ghost var e;
          found, e := Versions.Get(versions.current, user, s);
          VersionReads(st, user, s, found, e);
        }
      }
      r := ToOption(found);
    }

    lemma ValidReads(user: UserKey, s: nat)
      requires Valid() && (s in snapshots || s == lastSequence)
      ensures Floor(State()) <= s <= |history| && StoreGet(State(), user, s) == PlainGet(history, user, s)
    {
      ReaderInRange(State(), s);
      ReadGivesNewest(State(), user, s);
    }
  }

  lemma NoImm(st: Store, user: UserKey, s: nat)
    ensures st.imm == None ==> NoneIn(ImmRun(st), user, s)
  {
  }

  // ---------------------------------------------------------------- lemmas for the methods

  lemma EmptyStored()
    ensures Stored(NO_FILES) && NumbersDescend([NO_FILES], NO_FILES, 2)
    ensures forall l :: 0 <= l < NUM_LEVELS ==> DistinctNumbers(NO_FILES[l])
  {
    forall l | 0 <= l < NUM_LEVELS ensures NO_FILES[l] == [] {
    }
  }

  lemma StoreFacts(st: Store)
    requires StoreOK(st)
    ensures VersionOK(st.version) && NumbersBelow(st.version, st.nextFile)
  {
  }

  lemma FloorInRange(st: Store)
    requires StoreOK(st)
    ensures Floor(st) < MAX_SEQUENCE
  {
    if st.snapshots != [] { assert st.snapshots[0] <= st.lastSequence; }
  }

  lemma DumpInstalled(st: Store, olds: seq<Version>, level: nat, f: File, st': Store)
    requires StoreOK(st) && NumbersDescend(olds, st.version, st.nextFile)
    requires st.imm.Some? && WellFormed(f) && f.entries == st.imm.value && f.number == st.nextFile
    requires IsMemTableLevel(st.version, f.smallest.user, f.largest.user, level)
    requires Applied(st.version, DumpEdit(level, f), st'.version)
    requires st' == st.(imm := None, nextFile := st.nextFile + 1, version := st'.version)
    ensures Step(st, DumpMemTable(level, f), st') && StoreOK(st')
    ensures NumbersDescend(olds + [st'.version], st'.version, st'.nextFile)
  {
    assert Step(st, DumpMemTable(level, f), st');
    hide StoreOK, NumbersDescend, WellFormed, IsMemTableLevel, Applied, Step;
    StepKeeps(st, DumpMemTable(level, f), st');
    DumpDescends(st, olds, level, f, st');
  }

  lemma MoveInstalled(st: Store, olds: seq<Version>, c: Compaction, st': Store)
    requires StoreOK(st) && NumbersDescend(olds, st.version, st.nextFile)
    requires PickOK(st.version, c) && HasGrandparents(st.version, c) && IsTrivialMove(c)
    requires Applied(st.version, CompactionEdit(c, c.inputs0), st'.version)
    requires st' == st.(version := st'.version)
    ensures Step(st, Move(c), st')
    ensures StoreOK(st') <==> BoundaryOK(st.version, c)
    ensures StoreOK(st') ==> NumbersDescend(olds + [st'.version], st'.version, st'.nextFile)
  {
    hide StoreOK, VersionOK, NumbersDescend, PickOK, BoundaryOK, Applied, CompactionEdit, IsTrivialMove, HasGrandparents;
    TrivialMoves(c);
    assert Step(st, Move(c), st');
    hide Step;
    StepExact(st, Move(c), st');
    if StoreOK(st') { InstallKeeps(st, olds, Move(c), c, c.inputs0, st'); }
  }

  lemma CompactInstalled(st: Store, olds: seq<Version>, c: Compaction, manual: bool, sizes: TableSizes,
                         stream: Run, outputs: Level, st': Store)
    requires StoreOK(st) && NumbersDescend(olds, st.version, st.nextFile)
    requires PickOK(st.version, c) && HasGrandparents(st.version, c) && (manual || !IsTrivialMove(c))
    requires CompactionOutputs(st.version, c, Floor(st), st.nextFile, sizes, stream, outputs)
    requires Applied(st.version, CompactionEdit(c, outputs), st'.version)
    requires st' == st.(nextFile := st.nextFile + |outputs|, version := st'.version)
    ensures Step(st, Compact(c, manual, sizes, stream, outputs), st')
    ensures StoreOK(st') <==> MergeOK(st, c)
    ensures StoreOK(st') ==> NumbersDescend(olds + [st'.version], st'.version, st'.nextFile)
  {
    hide StoreOK, VersionOK, NumbersDescend, PickOK, MergeOK, Applied, CompactionEdit, CompactionOutputs, Floor;
    hide HasGrandparents, IsTrivialMove;
    OutputNumbers(st, c, sizes, stream, outputs);
    var a := Compact(c, manual, sizes, stream, outputs);
    TrivialMoves(c);
    assert Step(st, a, st');
    hide Step;
    StepExact(st, a, st');
    if StoreOK(st') { InstallKeeps(st, olds, a, c, outputs, st'); }
  }

  /** What an installation step keeps. */
  lemma InstallKeeps(st: Store, olds: seq<Version>, a: Action, c: Compaction, outputs: Level, st': Store)
    requires StoreOK(st) && NumbersDescend(olds, st.version, st.nextFile) && StoreOK(st')
    requires a == Move(c) || (a.Compact? && a.c == c)
    requires PickOK(st.version, c)
    requires Applied(st.version, CompactionEdit(c, outputs), st'.version) && st.nextFile <= st'.nextFile
    requires (forall f :: f in outputs ==> f.number >= st.nextFile) || outputs == c.inputs0
    ensures NumbersDescend(olds + [st'.version], st'.version, st'.nextFile)
  {
    StoreFacts(st);
    hide StoreOK, VersionOK, NumbersDescend, NumbersBelow, PickOK, Applied, CompactionEdit, Installed;
    StoreFacts(st');
    EditInstalls(st.version, c, outputs, st'.version);
    InstallDescends(st.version, st.nextFile, olds, c, outputs, st'.version, st'.nextFile);
  }

  lemma NewNumbersDescendSame(versions: seq<Version>, v: Version, nextFile: nat, nextFile': nat)
    requires NumbersDescend(versions, v, nextFile) && nextFile <= nextFile'
    ensures NumbersDescend(versions, v, nextFile')
  {
  }

  lemma MemTableWellFormed(st: Store, f: File)
    requires StoreOK(st) && st.imm.Some? && st.imm.value != []
    requires f.entries == st.imm.value
    requires f.smallest == f.entries[0].key && f.largest == f.entries[|f.entries|-1].key
    ensures WellFormed(f)
  {
    assert forall e :: e in f.entries ==> e in ImmRun(st);
  }

  lemma DumpDescends(st: Store, versions: seq<Version>, level: nat, f: File, st': Store)
    requires NumbersDescend(versions, st.version, st.nextFile) && StoreOK(st')
    requires Step(st, DumpMemTable(level, f), st')
    ensures NumbersDescend(versions + [st'.version], st'.version, st'.nextFile)
  {
    DumpMeaning(st.version, level, f, st'.version);
    forall m, g | 0 <= m < NUM_LEVELS && g in st'.version[m] ensures g.number >= st.nextFile || g in st.version[m] {
      assert AfterDump(st.version, level, f, m, g);
    }
    NewNumbersDescend(versions, st.version, st.nextFile, st'.version, st'.nextFile);
  }

  lemma MoveEditForm(c: Compaction, f: File)
    requires c.inputs0 == [f] && c.inputs1 == []
    ensures CompactionEdit(c, c.inputs0) ==
            VersionEdit(None, {LevelNumber(c.level, f.number)}, [LevelFile(c.level + 1, f)])
  {
    assert (set g | g in c.inputs0 :: LevelNumber(c.level, g.number)) == {LevelNumber(c.level, f.number)} by {
      assert f in c.inputs0;
    }
    assert CompactionEdit(c, c.inputs0).newFiles == [LevelFile(c.level + 1, f)];
  }

  lemma OutputNumbers(st: Store, c: Compaction, sizes: TableSizes, stream: Run, outputs: Level)
    requires CompactionOutputs(st.version, c, Floor(st), st.nextFile, sizes, stream, outputs)
    ensures forall f :: f in outputs ==> f.number >= st.nextFile
  {
  }
}
