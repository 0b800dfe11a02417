/** What goes wrong when a compaction leaves behind a file that continues an input's last user key
    (leveldb/db/version_set.cc does not check for one): two runs of the store, step by step, with the picks
    and the cuts of the code, after which a read of the latest state does not give the newest write. */
module Counterexamples {
  import opened Options
  import opened Slices
  import opened Runs
  import opened Versions
  import opened Builder
  import opened Picker
  import opened Compactions
  import opened CompactionWork
  import opened Install
  import opened Store
  import opened ReadExact

  /** The sizes of tables: 16 bytes for an entry, and its value. The blocks are so small that every entry
      ends one, so that a table being built has the same size. */
  function BytesOf(run: Run): nat {
    if run == [] then 0 else BytesOf(run[..|run|-1]) + |run[|run|-1].value| + 16
  }

  function Sizes(): TableSizes { TableSizes(BytesOf, BytesOf) }

  /** A value of two megabytes. */
  function Big(): (r: Bytes)
    ensures |r| == TARGET_FILE_SIZE
  {
    seq(TARGET_FILE_SIZE, _ => 0)
  }

  lemma OneEntry(e: Entry)
    ensures BytesOf([e]) == |e.value| + 16
  {
    assert [e][..0] == [];
  }

  lemma MoreEntries(run: Run, e: Entry)
    ensures BytesOf(run + [e]) == BytesOf(run) + |e.value| + 16
  {
    assert (run + [e])[..|run|] == run;
  }

  /** The version with these files in levels 0 to 3. */
  function Levels(l0: Level, l1: Level, l2: Level, l3: Level): Version {
    [l0, l1, l2, l3, [], [], []]
  }

  /** A read of `user` in the latest state is answered by `e`, which is not the newest write. */
  ghost predicate ReadsWrong(st: Store, user: UserKey, e: Entry) {
    && Readable(st) && st.lastSequence == |st.history|
    && StoreGet(st, user, st.lastSequence) == ToOption(Answer(e)) != PlainGet(st.history, user, st.lastSequence)
  }

  lemma WrongAnswer(st: Store, user: UserKey, level: nat, e: Entry)
    requires Readable(st) && st.mem == [] && st.imm == None && st.lastSequence == |st.history| && level < NUM_LEVELS
    requires AnswersAt(st.version, level, user, st.lastSequence, e)
    requires ToOption(Answer(e)) != PlainGet(st.history, user, st.lastSequence)
    ensures ReadsWrong(st, user, e) && !ReadsRight(st)
  {
    assert Answers(st, user, st.lastSequence, e);
    ReadIs(st, user, st.lastSequence, e);
    assert Reader(st, st.lastSequence);
  }

  /** The input stream of a compaction is determined by its inputs. */
  lemma {:induction false} SortedUnique(a: Run, b: Run)
    requires Sorted(a) && Sorted(b) && forall e :: e in a <==> e in b
    ensures a == b
  {
    assert a != [] ==> a[0] in b;
    assert b != [] ==> b[0] in a;
    if a != [] {
      FirstIsLeast(a, b[0]);
      FirstIsLeast(b, a[0]);
      forall e ensures e in a[1..] <==> e in b[1..] {
        TailElements(a, e);
        TailElements(b, e);
      }
      SortedUnique(a[1..], b[1..]);
    }
  }

  lemma FirstIsLeast(run: Run, e: Entry)
    requires Sorted(run) && e in run
    ensures run[0] == e || Less(run[0].key, e.key)
  {
  }

  lemma TailElements(a: Run, e: Entry)
    requires Sorted(a) && a != []
    ensures e in a[1..] <==> e in a && e != a[0]
  {
    if e in a[1..] { var i :| 0 <= i < |a[1..]| && a[1..][i] == e; assert Less(a[0].key, a[i+1].key); }
    if e in a && e != a[0] { var i :| 0 <= i < |a| && a[i] == e; assert a[1..][i-1] == e; }
  }

  /** One more entry of a compaction with few grandparents is kept. */
  lemma KeepOne(v: Version, c: Compaction, snapshot: nat, stream: Run, n: nat, t: Cut, open: Run)
    requires n < |stream| && TotalFileSize(c.grandparents) <= MAX_GRANDPARENT_OVERLAP_BYTES
    requires CutUpTo(v, c, snapshot, stream, Sizes(), n) == t && open == t.open + [stream[n]]
    requires !Dropped(stream, n, snapshot, v, c.level)
    ensures CutUpTo(v, c, snapshot, stream, Sizes(), n + 1) ==
            if BytesOf(open) >= TARGET_FILE_SIZE then Cut(t.done + [open], []) else Cut(t.done, open)
  {
    hide Dropped;
    FewGrandparents(c, stream, n + 1);
  }

  lemma DropOne(v: Version, c: Compaction, snapshot: nat, stream: Run, n: nat)
    requires n < |stream| && TotalFileSize(c.grandparents) <= MAX_GRANDPARENT_OVERLAP_BYTES
    requires Dropped(stream, n, snapshot, v, c.level)
    ensures CutUpTo(v, c, snapshot, stream, Sizes(), n + 1) == CutUpTo(v, c, snapshot, stream, Sizes(), n)
  {
    hide Dropped;
    FewGrandparents(c, stream, n + 1);
  }

  lemma OverlapOne(f: File, begin: UserKey, end: UserKey)
    requires f.smallest.user <= end && begin <= f.largest.user
    ensures Overlapping([f], Some(begin), Some(end)) == [f]
  {
    assert [f][..0] == [];
  }

  /** A pick of a single file. */
  lemma PickSingle(v: Version, c: Compaction, f: File)
    requires |v| == NUM_LEVELS && c.level + 1 < NUM_LEVELS && c.inputs0 == [f] && f in v[c.level]
    requires IsRange([f], c.smallest, c.largest) && (c.level == 0 ==> v[0] == [f])
    requires c.inputs1 == Overlapping(v[c.level+1], Some(c.smallest.user), Some(c.largest.user))
    ensures PickOK(v, c)
  {
    hide Overlapping, IsRange;
  }

  /** If all files of both levels are inputs, nothing is left behind. */
  lemma NothingLeftOver(v: Version, c: Compaction)
    requires PickOK(v, c) && (c.level > 0 ==> c.inputs0 == v[c.level]) && c.inputs1 == v[c.level+1]
    ensures BoundaryOK(v, c)
  {
  }

  lemma RangeOne(f: File)
    requires f.smallest == f.largest || Less(f.smallest, f.largest)
    ensures IsRange([f], f.smallest, f.largest) && IsRange([f] + [], f.smallest, f.largest)
  {
    assert f in [f] && [f] + [] == [f];
  }

  /** What the merge loop hands over is exactly this, if the stream, the kept entries and the cuts are. */
  lemma OutputsAre(v: Version, c: Compaction, snapshot: nat, first: nat, stream: Run, outputs: Level,
                   stream': Run, outputs': Level)
    requires CompactionOutputs(v, c, snapshot, first, Sizes(), stream, outputs)
    requires CompactionOutputs(v, c, snapshot, first, Sizes(), stream', outputs')
    ensures stream == stream' && outputs == outputs'
  {
    assert InputStream(c, stream) && InputStream(c, stream');
    SortedUnique(stream, stream');
    AreTablesUnique(outputs, outputs', first, Sizes(), CutStream(v, c, snapshot, stream, Sizes()));
  }

  lemma AppliedIs(v: Version, edit: VersionEdit, v': Version)
    requires |v| == |v'| == NUM_LEVELS
    requires LevelSorted(v'[0]) && LevelSorted(v'[1]) && LevelSorted(v'[2]) && LevelSorted(v'[3])
    requires LevelSorted(v'[4]) && LevelSorted(v'[5]) && LevelSorted(v'[6])
    requires forall f :: f in v'[0] <==> InEdited(v[0], edit, 0, f)
    requires forall f :: f in v'[1] <==> InEdited(v[1], edit, 1, f)
    requires forall f :: f in v'[2] <==> InEdited(v[2], edit, 2, f)
    requires forall f :: f in v'[3] <==> InEdited(v[3], edit, 3, f)
    requires forall f :: f in v'[4] <==> InEdited(v[4], edit, 4, f)
    requires forall f :: f in v'[5] <==> InEdited(v[5], edit, 5, f)
    requires forall f :: f in v'[6] <==> InEdited(v[6], edit, 6, f)
    ensures Applied(v, edit, v')
  {
  }

  // ---------------------------------------------------------------- runs, one step at a time

  /** Some run leads to the state with only allowed picks. */
  ghost predicate Reachable(st: Store) {
    exists states, actions :: IsRun(states, actions) && RunActionsOK(states, actions) && states[|actions|] == st
  }

  lemma StartReachable(st: Store)
    requires Initial(st)
    ensures Reachable(st)
  {
    assert IsRun([st], []) && RunActionsOK([st], []);
  }

  lemma StepReachable(st: Store, a: Action, st': Store)
    requires Reachable(st) && Step(st, a, st') && ActionOK(st, a)
    ensures Reachable(st')
  {
    hide Step, ActionOK, Initial;
    var states, actions :| IsRun(states, actions) && RunActionsOK(states, actions) && states[|actions|] == st;
    var ss, as' := states + [st'], actions + [a];
    forall i | 0 <= i < |as'| ensures Step(ss[i], as'[i], ss[i+1]) && ActionOK(ss[i], as'[i]) {
      if i < |actions| { assert as'[i] == actions[i] && ss[i] == states[i] && ss[i+1] == states[i+1]; }
    }
    assert IsRun(ss, as') && RunActionsOK(ss, as') && ss[|as'|] == st';
  }

  /** Write one update and publish it. */
  lemma WriteReachable(st: Store, u: Update, st': Store)
    requires Reachable(st) && |st.history| < 100
    requires var h := st.history + [u];
             st' == st.(history := h, mem := InsertEntry(st.mem, EntryOf(h, |h|)), lastSequence := |h|)
    ensures Reachable(st')
  {
    var mid := st'.(lastSequence := st.lastSequence);
    hide Reachable;
    StepReachable(st, AppendUpdate(u), mid);
    StepReachable(mid, Publish, st');
  }

  /** Switch the memtable and dump it. */
  lemma DumpReachable(st: Store, level: nat, f: File, v: Version)
    requires Reachable(st) && st.imm == None && st.lastSequence == |st.history|
    requires WellFormed(f) && f.entries == st.mem && f.number == st.nextFile
    requires IsMemTableLevel(st.version, f.smallest.user, f.largest.user, level)
    requires Applied(st.version, DumpEdit(level, f), v)
    ensures Reachable(st.(mem := [], nextFile := st.nextFile + 1, version := v))
  {
    var mid := st.(imm := Some(st.mem), mem := []);
    hide Reachable, WellFormed, IsMemTableLevel, Applied;
    StepReachable(st, SwitchMemTable, mid);
    StepReachable(mid, DumpMemTable(level, f), st.(mem := [], nextFile := st.nextFile + 1, version := v));
  }

  lemma ReachableOK(st: Store)
    requires Reachable(st)
    ensures StoreOK(st)
  {
    hide StoreOK, Step, ActionOK;
    var states, actions :| IsRun(states, actions) && RunActionsOK(states, actions) && states[|actions|] == st;
    RunKeepsInvariant(states, actions, |actions|);
  }

  /** A compaction that PickCompaction chose, with nothing left behind that continues an input. */
  lemma CompactReachable(st: Store, c: Compaction, stream: Run, outputs: Level, v: Version)
    requires Reachable(st) && PickOK(st.version, c) && HasGrandparents(st.version, c) && !IsTrivialMove(c)
    requires BoundaryOK(st.version, c)
    requires CompactionOutputs(st.version, c, Floor(st), st.nextFile, Sizes(), stream, outputs)
    requires Applied(st.version, CompactionEdit(c, outputs), v)
    ensures Reachable(st.(nextFile := st.nextFile + |outputs|, version := v))
  {
    hide Reachable, StoreOK, VersionOK, PickOK, BoundaryOK, MergeOK, CompactionOutputs, Applied, CompactionEdit;
    hide HasGrandparents, IsTrivialMove;
    ReachableOK(st);
    StoredFacts(st);
    BoundarySuffices(st, c);
    TrivialMoves(c);
    StepReachable(st, Compact(c, false, Sizes(), stream, outputs),
                  st.(nextFile := st.nextFile + |outputs|, version := v));
  }

  lemma TakeReachable(st: Store)
    requires Reachable(st)
    ensures Reachable(st.(snapshots := st.snapshots + [st.lastSequence]))
  {
    hide Reachable;
    StepReachable(st, TakeSnapshot, st.(snapshots := st.snapshots + [st.lastSequence]));
  }

  lemma ReleaseReachable(st: Store)
    requires Reachable(st) && |st.snapshots| == 1
    ensures Reachable(st.(snapshots := []))
  {
    hide Reachable;
    assert st.snapshots[..0] + st.snapshots[1..] == [];
    StepReachable(st, ReleaseSnapshot(0), st.(snapshots := []));
  }

  const Empty := Store([], None, NO_FILES, 0, [], 2, [])

  // ---------------------------------------------------------------- a trivial move

  const K: UserKey := 1.0
  function PutOld(): Update { Update(K, Value, [1]) }
  function PutNew(): Update { Update(K, Value, Big()) }
  function Old(): Entry { Entry(InternalKey(K, 1, Value), [1]) }
  function New(): Entry { Entry(InternalKey(K, 2, Value), Big()) }
  function OldFile(): File { TableOf(2, Sizes(), [Old()]) }
  function NewFile(): File { TableOf(3, Sizes(), [New()]) }
  function First(): File { TableOf(4, Sizes(), [New()]) }
  function Second(): File { TableOf(5, Sizes(), [Old()]) }

  function OnlyOld(): Version { Levels([], [], [OldFile()], []) }
  function OldAndNew(): Version { Levels([], [NewFile()], [OldFile()], []) }
  function SplitVersion(): Version { Levels([], [], [First(), Second()], []) }
  function MovedVersion(): Version { Levels([], [], [Second()], [First()]) }

  function MergeBoth(): Compaction { Compaction(1, [NewFile()], [OldFile()], [], New().key, New().key) }
  function MoveFirst(): Compaction { Compaction(2, [First()], [], [], New().key, New().key) }

  lemma DumpOld()
    ensures WellFormed(OldFile()) && IsMemTableLevel(NO_FILES, K, K, 2)
    ensures Applied(NO_FILES, DumpEdit(2, OldFile()), OnlyOld())
  {
    hide BytesOf;
    assert MayDescend(NO_FILES, 0, K, K) && MayDescend(NO_FILES, 1, K, K);
    AppliedIs(NO_FILES, DumpEdit(2, OldFile()), OnlyOld());
  }

  /** The newer value meets the older one in level 2, so its table goes to level 1. */
  lemma DumpNew()
    ensures WellFormed(NewFile()) && IsMemTableLevel(OnlyOld(), K, K, 1)
    ensures Applied(OnlyOld(), DumpEdit(1, NewFile()), OldAndNew())
  {
    OneEntry(Old());
    hide Big, BytesOf;
    assert Overlapping([OldFile()], Some(K), Some(K)) == [OldFile()];
    assert OldFile() in OnlyOld()[2] && Meets(OnlyOld()[2], K, K);
    assert MayDescend(OnlyOld(), 0, K, K) && !MayDescend(OnlyOld(), 1, K, K);
    AppliedIs(OnlyOld(), DumpEdit(1, NewFile()), OldAndNew());
  }

  lemma PickBoth()
    ensures PickOK(OldAndNew(), MergeBoth()) && BoundaryOK(OldAndNew(), MergeBoth())
    ensures HasGrandparents(OldAndNew(), MergeBoth()) && !IsTrivialMove(MergeBoth())
  {
    hide Big, BytesOf, TotalFileSize, PickOK, BoundaryOK, Overlapping, IsRange;
    GrandparentsBoth();
    hide HasGrandparents;
    assert OldAndNew()[1] == [NewFile()] && OldAndNew()[2] == [OldFile()] && NewFile() in [NewFile()];
    OverlapOne(OldFile(), K, K);
    RangeOne(NewFile());
    PickSingle(OldAndNew(), MergeBoth(), NewFile());
    NothingLeftOver(OldAndNew(), MergeBoth());
  }

  lemma GrandparentsBoth()
    ensures HasGrandparents(OldAndNew(), MergeBoth())
  {
    hide Big, BytesOf;
    assert IsRange([NewFile()] + [OldFile()], New().key, Old().key) by {
      assert NewFile() in [NewFile()] + [OldFile()] && OldFile() in [NewFile()] + [OldFile()];
    }
    hide IsRange;
    assert Overlapping([], Some(K), Some(K)) == [];
    assert MergeBoth().grandparents == Overlapping(OldAndNew()[3], Some(New().key.user), Some(Old().key.user));
  }

  lemma InstallBoth()
    ensures Applied(OldAndNew(), CompactionEdit(MergeBoth(), [First(), Second()]), SplitVersion())
  {
    hide Big, BytesOf;
    assert CompactionEdit(MergeBoth(), [First(), Second()]).newFiles == [LevelFile(2, First()), LevelFile(2, Second())];
    AppliedIs(OldAndNew(), CompactionEdit(MergeBoth(), [First(), Second()]), SplitVersion());
  }

  lemma StreamBoth()
    ensures InputStream(MergeBoth(), [New(), Old()])
  {
    hide Big, BytesOf;
    forall e ensures e in [New(), Old()] <==> InInputs(MergeBoth(), e) {
      if e in NewFile().entries { assert NewFile() in [NewFile()]; }
      if e in OldFile().entries { assert OldFile() in [OldFile()]; }
    }
  }

  lemma KeptBoth()
    ensures !Dropped([New(), Old()], 0, 1, OldAndNew(), 1) && !Dropped([New(), Old()], 1, 1, OldAndNew(), 1)
  {
  }

  lemma RunsBoth()
    ensures CutStream(OldAndNew(), MergeBoth(), 1, [New(), Old()], Sizes()) == [[New()], [Old()]]
  {
    var v, c, stream := OldAndNew(), MergeBoth(), [New(), Old()];
    KeptBoth();
    OneEntry(New());
    OneEntry(Old());
    hide Dropped, StopsBefore, BytesOf, Big, CutUpTo, OldAndNew, OldFile, NewFile;
    CutNone(v, c, 1, stream, Sizes());
    KeepOne(v, c, 1, stream, 0, Cut([], []), [New()]);
    KeepOne(v, c, 1, stream, 1, Cut([[New()]], []), [Old()]);
  }

  lemma TablesBoth()
    ensures AreTables([First(), Second()], 4, Sizes(), [[New()], [Old()]])
  {
    hide BytesOf, Big;
  }

  /** With a snapshot at 1 both values are kept, and the newer one alone fills a table. */
  lemma CutBoth()
    ensures CompactionOutputs(OldAndNew(), MergeBoth(), 1, 4, Sizes(), [New(), Old()], [First(), Second()])
  {
    hide First, Second, OldAndNew, MergeBoth, New, Old, StoreOK, VersionOK, PickOK, BoundaryOK, HasGrandparents, Reachable;
    hide CutUpTo, InputStream, AreTables, IsTrivialMove;
    RunsBoth();
    TablesBoth();
    StreamBoth();
    BeforeMergeReachable();
    ReachableOK(BeforeMerge());
    StoredFacts(BeforeMerge());
    PickBoth();
    OutputsReady(OldAndNew(), MergeBoth(), 1, 4, Sizes(), [New(), Old()], [First(), Second()]);
  }

  /** Nobody left anything behind: PickFile picks this and the merge loop writes exactly these tables. */
  method BothByTheCode() returns (c: Compaction, outputs: Level)
    ensures c == MergeBoth() && outputs == [First(), Second()]
  {
    ghost var v := OldAndNew();
    BeforeMergeReachable();
    ReachableOK(BeforeMerge());
    StoredFacts(BeforeMerge());
    hide VersionOK;
    c := PickFile(OldAndNew(), 1, NewFile());
    OnlyPick(c);
    ghost var stream;
    outputs, stream := DoCompactionWork(OldAndNew(), c, 1, 4, Sizes());
    CutBoth();
    OutputsAre(v, c, 1, 4, stream, outputs, [New(), Old()], [First(), Second()]);
  }

  lemma OnlyPick(c: Compaction)
    requires PickOK(OldAndNew(), c) && HasGrandparents(OldAndNew(), c) && c.level == 1 && NewFile() in c.inputs0
    ensures c == MergeBoth()
  {
    hide Big, BytesOf;
    OneFileOnly(c.inputs0, NewFile());
    assert c.smallest == New().key && c.largest == New().key;
    assert Overlapping([OldFile()], Some(K), Some(K)) == [OldFile()];
  }

  lemma OneFileOnly(files: Level, f: File)
    requires LevelSorted(files) && files != [] && forall g :: g in files ==> g == f
    ensures files == [f]
  {
    assert files[0] in files;
    assert |files| > 1 ==> files[1] in files && BySmallest(files[0], files[1]);
  }

  lemma MoveOne()
    ensures var v := SplitVersion();
      && PickOK(v, MoveFirst()) && HasGrandparents(v, MoveFirst()) && IsTrivialMove(MoveFirst())
      && !BoundaryOK(v, MoveFirst()) && Applied(v, CompactionEdit(MoveFirst(), [First()]), MovedVersion())
  {
    hide Big, BytesOf;
    var v := SplitVersion();
    assert IsRange([First()], New().key, New().key) by { assert First() in [First()]; }
    assert IsRange([First()] + [], New().key, New().key) by { assert [First()] + [] == [First()]; }
    assert PickOK(v, MoveFirst());
    assert Continues(First(), Second()) && Second() in v[2] && Second() !in MoveFirst().inputs0;
    assert CompactionEdit(MoveFirst(), [First()]).newFiles == [LevelFile(3, First())];
    AppliedIs(v, CompactionEdit(MoveFirst(), [First()]), MovedVersion());
  }

  function BeforeMerge(): Store {
    Store([], None, OldAndNew(), 2, [1], 4, [PutOld(), PutNew()])
  }

  /** The state before the move: both values of the key in level 2, in two files. */
  function BeforeMove(): Store {
    Store([], None, SplitVersion(), 2, [], 6, [PutOld(), PutNew()])
  }

  lemma BeforeMergeReachable()
    ensures Reachable(BeforeMerge())
  {
    hide Reachable, WellFormed, Applied, IsMemTableLevel, Big, BytesOf;
    StartReachable(Empty);
    var s1 := Empty.(mem := [Old()], history := [PutOld()], lastSequence := 1);
    WriteReachable(Empty, PutOld(), s1);
    TakeReachable(s1);
    assert s1.snapshots + [s1.lastSequence] == [1];
    var s2 := s1.(snapshots := [1]);
    DumpOld();
    DumpReachable(s2, 2, OldFile(), OnlyOld());
    var s3 := s2.(mem := [], nextFile := 3, version := OnlyOld());
    assert s3.history + [PutNew()] == [PutOld(), PutNew()];
    assert InsertEntry([], New()) == [New()];
    var s4 := s3.(mem := [New()], history := [PutOld(), PutNew()], lastSequence := 2);
    WriteReachable(s3, PutNew(), s4);
    DumpNew();
    DumpReachable(s4, 1, NewFile(), OldAndNew());
    assert BeforeMerge() == s4.(mem := [], nextFile := 4, version := OldAndNew());
  }

  lemma BeforeMoveReachable()
    ensures Reachable(BeforeMove())
  {
    hide Reachable, PickOK, HasGrandparents, IsTrivialMove, BoundaryOK, CompactionOutputs, Applied, CompactionEdit;
    hide Big, BytesOf;
    BeforeMergeReachable();
    PickBoth();
    InstallBoth();
    CutBoth();
    CompactReachable(BeforeMerge(), MergeBoth(), [New(), Old()], [First(), Second()], SplitVersion());
    var s5 := BeforeMerge().(nextFile := 6, version := SplitVersion());
    ReleaseReachable(s5);
    assert BeforeMove() == s5.(snapshots := []);
  }

  /** A trivial move can bring back an overwritten value: the first file of level 2 moves down, the
      file that continues its key stays above it and answers. */
  lemma MoveHidesNewest()
    ensures var st' := BeforeMove().(version := MovedVersion());
      && Reachable(BeforeMove()) && Step(BeforeMove(), Move(MoveFirst()), st')
      && ReadsWrong(st', K, Old()) && !ReadsRight(st')
  {
    var st, st' := BeforeMove(), BeforeMove().(version := MovedVersion());
    hide Reachable, PickOK, HasGrandparents, Applied, BoundaryOK, CompactionEdit, Big, BytesOf;
    hide StoreOK, Readable, ReadsRight, ReadsKeep;
    BeforeMoveReachable();
    ReachableOK(st);
    MoveOne();
    assert Step(st, Move(MoveFirst()), st');
    hide Step;
    CompactionReads(st, Move(MoveFirst()), st');
    assert NewestIn(st'.version[2], K, 2, Old()) by { assert Second() in st'.version[2] && Old() in Second().entries; }
    assert AnswersAt(st'.version, 2, K, 2, Old());
    assert LatestUpdate(st'.history, K, 2) == 2;
    assert PlainGet(st'.history, K, 2) == Some(Big());
    assert [1] != Big();
    WrongAnswer(st', K, 2, Old());
  }

  // ---------------------------------------------------------------- a compaction of level 0

  const J: UserKey := 0.5
  function J1(): Entry { Entry(InternalKey(J, 1, Value), [1]) }
  function J2(): Entry { Entry(InternalKey(J, 2, Value), [2]) }
  function K3(): Entry { Entry(InternalKey(K, 3, Value), [3]) }
  function K4(): Entry { Entry(InternalKey(K, 4, Value), Big()) }
  function K5(): Entry { Entry(InternalKey(K, 5, Deletion), []) }
  function J6(): Entry { Entry(InternalKey(J, 6, Value), [6]) }
  function Writes(): History {
    [Update(J, Value, [1]), Update(J, Value, [2]), Update(K, Value, [3]), Update(K, Value, Big()),
     Update(K, Deletion, []), Update(J, Value, [6])]
  }

  function Deep(): File { TableOf(2, Sizes(), [J1()]) }
  function Lower(): File { TableOf(3, Sizes(), [J2(), K3()]) }
  function Upper(): File { TableOf(4, Sizes(), [K5(), K4()]) }
  function Upto(): File { TableOf(5, Sizes(), [J2(), K5(), K4()]) }
  function Rest(): File { TableOf(6, Sizes(), [K3()]) }
  function Last(): File { TableOf(7, Sizes(), [J6()]) }
  function Merged(): File { TableOf(8, Sizes(), [J6()]) }

  function OnlyDeep(): Version { Levels([], [], [Deep()], []) }
  function WithLower(): Version { Levels([], [Lower()], [Deep()], []) }
  function WithUpper(): Version { Levels([Upper()], [Lower()], [Deep()], []) }
  function SplitK(): Version { Levels([], [Upto(), Rest()], [Deep()], []) }
  function WithLast(): Version { Levels([Last()], [Upto(), Rest()], [Deep()], []) }
  function Revived(): Version { Levels([], [Merged(), Rest()], [Deep()], []) }

  function MergeUpper(): Compaction { Compaction(0, [Upper()], [Lower()], [Deep()], K5().key, K4().key) }
  function MergeLast(): Compaction { Compaction(0, [Last()], [Upto()], [Deep()], J6().key, J6().key) }

  lemma DeepIsSmall()
    ensures TotalFileSize([Deep()]) == 17
  {
    OneEntry(J1());
  }

  lemma DumpDeep()
    ensures WellFormed(Deep()) && IsMemTableLevel(NO_FILES, J, J, 2) && Applied(NO_FILES, DumpEdit(2, Deep()), OnlyDeep())
  {
    hide BytesOf;
    assert MayDescend(NO_FILES, 0, J, J) && MayDescend(NO_FILES, 1, J, J);
    AppliedIs(NO_FILES, DumpEdit(2, Deep()), OnlyDeep());
  }

  /** J is in level 2 already, so the table of J and K goes to level 1. */
  lemma DumpLower()
    ensures WellFormed(Lower()) && IsMemTableLevel(OnlyDeep(), J, K, 1)
    ensures Applied(OnlyDeep(), DumpEdit(1, Lower()), WithLower())
  {
    DeepIsSmall();
    OverlapOne(Deep(), J, K);
    hide BytesOf, TotalFileSize, Overlapping, Applied;
    assert Deep() in OnlyDeep()[2] && Meets(OnlyDeep()[2], J, K);
    assert MayDescend(OnlyDeep(), 0, J, K) && !MayDescend(OnlyDeep(), 1, J, K);
    AppliedIs(OnlyDeep(), DumpEdit(1, Lower()), WithLower());
  }

  lemma DumpUpper()
    ensures WellFormed(Upper()) && IsMemTableLevel(WithLower(), K, K, 0)
    ensures Applied(WithLower(), DumpEdit(0, Upper()), WithUpper())
  {
    hide BytesOf, Big, TotalFileSize;
    assert Lower() in WithLower()[1] && Meets(WithLower()[1], K, K);
    assert !MayDescend(WithLower(), 0, K, K);
    AppliedIs(WithLower(), DumpEdit(0, Upper()), WithUpper());
  }

  lemma PickUpper()
    ensures PickOK(WithUpper(), MergeUpper()) && BoundaryOK(WithUpper(), MergeUpper())
    ensures HasGrandparents(WithUpper(), MergeUpper()) && !IsTrivialMove(MergeUpper())
  {
    hide Big, BytesOf, TotalFileSize, PickOK, BoundaryOK, Overlapping, IsRange, HasGrandparents;
    GrandparentsUpper();
    assert WithUpper()[0] == [Upper()] && WithUpper()[1] == [Lower()] && Upper() in [Upper()];
    OverlapOne(Lower(), K, K);
    RangeOne(Upper());
    PickSingle(WithUpper(), MergeUpper(), Upper());
    NothingLeftOver(WithUpper(), MergeUpper());
  }

  lemma GrandparentsUpper()
    ensures HasGrandparents(WithUpper(), MergeUpper())
  {
    assert IsRange([Upper()] + [Lower()], J2().key, K3().key) by {
      assert Upper() in [Upper()] + [Lower()] && Lower() in [Upper()] + [Lower()];
    }
    OverlapOne(Deep(), J, K);
    hide Overlapping, IsRange, BytesOf, Big;
    assert MergeUpper().grandparents == Overlapping(WithUpper()[2], Some(J2().key.user), Some(K3().key.user));
  }

  lemma InstallUpper()
    ensures Applied(WithUpper(), CompactionEdit(MergeUpper(), [Upto(), Rest()]), SplitK())
  {
    hide BytesOf, Big;
    assert CompactionEdit(MergeUpper(), [Upto(), Rest()]).newFiles == [LevelFile(1, Upto()), LevelFile(1, Rest())];
    AppliedIs(WithUpper(), CompactionEdit(MergeUpper(), [Upto(), Rest()]), SplitK());
  }

  function UpperStream(): Run { [J2(), K5(), K4(), K3()] }

  lemma StreamUpper()
    ensures InputStream(MergeUpper(), UpperStream())
  {
    hide Big, BytesOf;
    forall e ensures e in UpperStream() <==> InInputs(MergeUpper(), e) {
      if e in Upper().entries { assert Upper() in [Upper()]; }
      if e in Lower().entries { assert Lower() in [Lower()]; }
    }
  }

  lemma SizesUpper()
    ensures BytesOf([J2()]) == 17 && BytesOf([J2(), K5()]) == 33 && BytesOf([K3()]) == 17
    ensures BytesOf([J2(), K5(), K4()]) > TARGET_FILE_SIZE
  {
    OneEntry(J2());
    OneEntry(K3());
    MoreEntries([J2()], K5());
    MoreEntries([J2(), K5()], K4());
    assert [J2()] + [K5()] == [J2(), K5()] && [J2(), K5()] + [K4()] == [J2(), K5(), K4()];
  }

  lemma KeptUpper()
    ensures forall i :: 0 <= i < 4 ==> !Dropped(UpperStream(), i, 3, WithUpper(), 0)
  {
    hide IsBaseLevel;
  }

  lemma RunsUpper()
    ensures CutStream(WithUpper(), MergeUpper(), 3, UpperStream(), Sizes()) == [[J2(), K5(), K4()], [K3()]]
  {
    var v, c, stream := WithUpper(), MergeUpper(), UpperStream();
    KeptUpper();
    DeepIsSmall();
    SizesUpper();
    hide Dropped, StopsBefore, TotalFileSize, BytesOf, Big, CutUpTo, WithUpper, Upper, Lower, Deep;
    CutNone(v, c, 3, stream, Sizes());
    KeepOne(v, c, 3, stream, 0, Cut([], []), [J2()]);
    KeepOne(v, c, 3, stream, 1, Cut([], [J2()]), [J2(), K5()]);
    KeepOne(v, c, 3, stream, 2, Cut([], [J2(), K5()]), [J2(), K5(), K4()]);
    KeepOne(v, c, 3, stream, 3, Cut([[J2(), K5(), K4()]], []), [K3()]);
  }

  lemma UpperVersionOK()
    ensures VersionOK(WithUpper())
  {
    hide StoreOK, VersionOK, Reachable, WithUpper, Writes, Layered, SnapshotsOK, StoredFromHistory, Retained, NumbersBelow;
    BeforeUpperReachable();
    ReachableOK(BeforeUpper());
    StoredFacts(BeforeUpper());
  }

  lemma TablesUpper()
    ensures AreTables([Upto(), Rest()], 5, Sizes(), [[J2(), K5(), K4()], [K3()]])
  {
    hide BytesOf, Big;
  }

  /** The snapshot at 3 keeps all four entries. The big value fills the first table, behind the deletion. */
  lemma CutUpper()
    ensures CompactionOutputs(WithUpper(), MergeUpper(), 3, 5, Sizes(), UpperStream(), [Upto(), Rest()])
  {
    hide Upto, Rest, WithUpper, MergeUpper, UpperStream, J2, K3, K4, K5, BytesOf, Big, Sizes, TableOf, StoreOK, VersionOK, PickOK, BoundaryOK, Reachable;
    hide HasGrandparents, CutUpTo, InputStream, AreTables, IsTrivialMove;
    RunsUpper();
    TablesUpper();
    StreamUpper();
    UpperVersionOK();
    PickUpper();
    OutputsReady(WithUpper(), MergeUpper(), 3, 5, Sizes(), UpperStream(), [Upto(), Rest()]);
  }

  lemma DumpLast()
    ensures WellFormed(Last()) && IsMemTableLevel(SplitK(), J, J, 0) && Applied(SplitK(), DumpEdit(0, Last()), WithLast())
  {
    hide BytesOf, Big, TotalFileSize;
    assert Upto() in SplitK()[1] && Meets(SplitK()[1], J, J);
    assert !MayDescend(SplitK(), 0, J, J);
    AppliedIs(SplitK(), DumpEdit(0, Last()), WithLast());
  }

  lemma OverlapLast()
    ensures Overlapping([Upto(), Rest()], Some(J), Some(J)) == [Upto()]
  {
    hide BytesOf, Big;
    assert [Upto(), Rest()][..1] == [Upto()] && [Upto()][..0] == [];
  }

  lemma PickLast()
    ensures PickOK(WithLast(), MergeLast()) && !BoundaryOK(WithLast(), MergeLast())
    ensures HasGrandparents(WithLast(), MergeLast()) && !IsTrivialMove(MergeLast())
  {
    hide Big, BytesOf, TotalFileSize, PickOK, BoundaryOK, Overlapping, IsRange, HasGrandparents;
    GrandparentsLast();
    assert WithLast()[0] == [Last()] && WithLast()[1] == [Upto(), Rest()] && Last() in [Last()];
    OverlapLast();
    RangeOne(Last());
    PickSingle(WithLast(), MergeLast(), Last());
    RestContinues();
  }

  lemma RestContinues()
    requires PickOK(WithLast(), MergeLast())
    ensures !BoundaryOK(WithLast(), MergeLast())
  {
    hide Big, BytesOf, PickOK;
    assert Upto() in MergeLast().inputs1 && Rest() in WithLast()[1] && Rest() !in MergeLast().inputs1;
    assert Continues(Upto(), Rest());
  }

  lemma GrandparentsLast()
    ensures HasGrandparents(WithLast(), MergeLast())
  {
    assert IsRange([Last()] + [Upto()], J6().key, K4().key) by {
      assert Last() in [Last()] + [Upto()] && Upto() in [Last()] + [Upto()];
    }
    OverlapOne(Deep(), J, K);
    hide Overlapping, IsRange, BytesOf, Big;
    assert MergeLast().grandparents == Overlapping(WithLast()[2], Some(J6().key.user), Some(K4().key.user));
  }

  lemma InstallLast()
    ensures Applied(WithLast(), CompactionEdit(MergeLast(), [Merged()]), Revived())
  {
    hide BytesOf, Big;
    assert CompactionEdit(MergeLast(), [Merged()]).newFiles == [LevelFile(1, Merged())];
    AppliedIs(WithLast(), CompactionEdit(MergeLast(), [Merged()]), Revived());
  }

  function LastStream(): Run { [J6(), J2(), K5(), K4()] }

  lemma StreamLast()
    ensures InputStream(MergeLast(), LastStream())
  {
    hide Big, BytesOf;
    forall e ensures e in LastStream() <==> InInputs(MergeLast(), e) {
      if e in Last().entries { assert Last() in [Last()]; }
      if e in Upto().entries { assert Upto() in [Upto()]; }
    }
  }

  lemma DroppedLast()
    ensures !Dropped(LastStream(), 0, 6, WithLast(), 0)
    ensures forall i :: 1 <= i < 4 ==> Dropped(LastStream(), i, 6, WithLast(), 0)
  {
    assert IsBaseLevel(WithLast(), 0, K);
    hide IsBaseLevel;
  }

  lemma RunsLast()
    ensures CutStream(WithLast(), MergeLast(), 6, LastStream(), Sizes()) == [[J6()]]
  {
    var v, c, stream := WithLast(), MergeLast(), LastStream();
    DroppedLast();
    DeepIsSmall();
    OneEntry(J6());
    hide Dropped, StopsBefore, TotalFileSize, BytesOf, Big, CutUpTo, WithLast, Last, Upto, Deep;
    CutNone(v, c, 6, stream, Sizes());
    KeepOne(v, c, 6, stream, 0, Cut([], []), [J6()]);
    DropOne(v, c, 6, stream, 1);
    DropOne(v, c, 6, stream, 2);
    DropOne(v, c, 6, stream, 3);
  }

  lemma TablesLast()
    ensures AreTables([Merged()], 8, Sizes(), [[J6()]])
  {
    hide BytesOf, Big;
  }

  /** No snapshot needs the deletion and no deeper level has the key, so it is dropped, although the
      file left behind in level 1 still holds an older value. */
  lemma CutLast()
    ensures CompactionOutputs(WithLast(), MergeLast(), 6, 8, Sizes(), LastStream(), [Merged()])
  {
    hide Merged, WithLast, MergeLast, LastStream, J6, StoreOK, VersionOK, PickOK, BoundaryOK, Reachable;
    hide HasGrandparents, CutUpTo, InputStream, AreTables, IsTrivialMove;
    RunsLast();
    TablesLast();
    StreamLast();
    BeforeDropReachable();
    ReachableOK(BeforeDrop());
    StoredFacts(BeforeDrop());
    PickLast();
    OutputsReady(WithLast(), MergeLast(), 6, 8, Sizes(), LastStream(), [Merged()]);
  }

  function BeforeUpper(): Store { Store([], None, WithUpper(), 5, [3], 5, Writes()[..5]) }
  function AllSplit(): Store { Store([], None, SplitK(), 5, [], 7, Writes()[..5]) }
  function BeforeDrop(): Store { Store([], None, WithLast(), 6, [], 8, Writes()) }

  /** One more of the writes. */
  lemma WriteNext(st: Store, n: nat, mem: Run)
    requires Reachable(st) && n < 6 && st.history == Writes()[..n]
    requires mem == InsertEntry(st.mem, EntryOf(Writes(), n + 1))
    ensures Reachable(st.(history := Writes()[..n+1], mem := mem, lastSequence := n + 1))
  {
    hide Reachable, Big;
    assert Writes()[..n+1] == Writes()[..n] + [Writes()[n]];
    assert EntryOf(Writes()[..n+1], n + 1) == EntryOf(Writes(), n + 1);
    WriteReachable(st, Writes()[n], st.(history := Writes()[..n+1], mem := mem, lastSequence := n + 1));
  }

  lemma LowerReachable()
    ensures Reachable(Store([], None, WithLower(), 3, [3], 4, Writes()[..3]))
  {
    hide Reachable, WellFormed, Applied, IsMemTableLevel, Big, BytesOf;
    StartReachable(Empty);
    WriteNext(Empty, 0, [J1()]);
    var s1 := Empty.(history := Writes()[..1], mem := [J1()], lastSequence := 1);
    DumpDeep();
    DumpReachable(s1, 2, Deep(), OnlyDeep());
    var s2 := s1.(mem := [], nextFile := 3, version := OnlyDeep());
    WriteNext(s2, 1, [J2()]);
    var s3 := s2.(history := Writes()[..2], mem := [J2()], lastSequence := 2);
    assert InsertEntry([J2()], K3()) == [J2(), K3()];
    WriteNext(s3, 2, [J2(), K3()]);
    var s4 := s3.(history := Writes()[..3], mem := [J2(), K3()], lastSequence := 3);
    DumpLower();
    DumpReachable(s4, 1, Lower(), WithLower());
    var s5 := s4.(mem := [], nextFile := 4, version := WithLower());
    TakeReachable(s5);
    assert s5.snapshots + [s5.lastSequence] == [3];
  }

  lemma BeforeUpperReachable()
    ensures Reachable(BeforeUpper())
  {
    hide Reachable, WellFormed, Applied, IsMemTableLevel, Big, BytesOf;
    LowerReachable();
    var s1 := Store([], None, WithLower(), 3, [3], 4, Writes()[..3]);
    WriteNext(s1, 3, [K4()]);
    var s2 := s1.(history := Writes()[..4], mem := [K4()], lastSequence := 4);
    assert InsertEntry([K4()], K5()) == [K5(), K4()];
    WriteNext(s2, 4, [K5(), K4()]);
    var s3 := s2.(history := Writes()[..5], mem := [K5(), K4()], lastSequence := 5);
    DumpUpper();
    DumpReachable(s3, 0, Upper(), WithUpper());
    assert BeforeUpper() == s3.(mem := [], nextFile := 5, version := WithUpper());
  }

  lemma AllSplitReachable()
    ensures Reachable(AllSplit())
  {
    hide Reachable, PickOK, HasGrandparents, IsTrivialMove, BoundaryOK, CompactionOutputs, Applied, CompactionEdit;
    hide Big, BytesOf;
    BeforeUpperReachable();
    PickUpper();
    InstallUpper();
    CutUpper();
    CompactReachable(BeforeUpper(), MergeUpper(), UpperStream(), [Upto(), Rest()], SplitK());
    var s := BeforeUpper().(nextFile := 7, version := SplitK());
    ReleaseReachable(s);
    assert AllSplit() == s.(snapshots := []);
  }

  lemma BeforeDropReachable()
    ensures Reachable(BeforeDrop())
  {
    hide Reachable, WellFormed, IsMemTableLevel, Applied, Big, BytesOf;
    AllSplitReachable();
    WriteNext(AllSplit(), 5, [J6()]);
    assert Writes()[..6] == Writes();
    var s := AllSplit().(history := Writes(), mem := [J6()], lastSequence := 6);
    DumpLast();
    DumpReachable(s, 0, Last(), WithLast());
    assert BeforeDrop() == s.(mem := [], nextFile := 8, version := WithLast());
  }

  /** A compaction of level 0 can bring back a deleted value: an input taken from level 1 has the deletion,
      which is dropped, and the file behind it in level 1 holds the value. */
  lemma DropRevivesDeleted()
    ensures var st' := BeforeDrop().(version := Revived(), nextFile := 9);
      && Reachable(BeforeDrop())
      && Step(BeforeDrop(), Compact(MergeLast(), false, Sizes(), LastStream(), [Merged()]), st')
      && MergeLast().level == 0 && ReadsWrong(st', K, K3()) && !ReadsRight(st')
  {
    var st, st' := BeforeDrop(), BeforeDrop().(version := Revived(), nextFile := 9);
    hide Reachable, PickOK, HasGrandparents, IsTrivialMove, Applied, BoundaryOK, CompactionEdit, CompactionOutputs;
    hide Big, BytesOf, StoreOK, Readable, ReadsRight, ReadsKeep, ReadsWrong, Step;
    BeforeDropReachable();
    ReachableOK(st);
    var a := Compact(MergeLast(), false, Sizes(), LastStream(), [Merged()]);
    DropStep();
    CompactionReads(st, a, st');
    RevivedWrong(st');
  }

  lemma DropStep()
    ensures Step(BeforeDrop(), Compact(MergeLast(), false, Sizes(), LastStream(), [Merged()]),
                 BeforeDrop().(version := Revived(), nextFile := 9))
  {
    hide PickOK, HasGrandparents, IsTrivialMove, Applied, BoundaryOK, CompactionEdit, CompactionOutputs, Big, BytesOf;
    PickLast();
    InstallLast();
    CutLast();
  }

  lemma RevivedWrong(st: Store)
    requires st == BeforeDrop().(version := Revived(), nextFile := 9) && Readable(st)
    ensures ReadsWrong(st, K, K3()) && !ReadsRight(st)
  {
    hide Readable, ReadsRight, Big, BytesOf;
    assert NewestIn(Revived()[1], K, 6, K3()) by { assert Rest() in Revived()[1] && K3() in Rest().entries; }
    assert AnswersAt(Revived(), 1, K, 6, K3());
    assert LatestUpdate(Writes(), K, 5) == 5 && LatestUpdate(Writes(), K, 6) == 5;
    WrongAnswer(st, K, 1, K3());
  }

  /** The picker and the merge loop of the code do just this in both compactions of the run. */
  method DropByTheCode() returns (c: Compaction, outputs: Level, d: Compaction, outputs': Level)
    ensures c == MergeUpper() && outputs == [Upto(), Rest()]
    ensures d == MergeLast() && outputs' == [Merged()]
  {
    hide VersionOK, StoreOK, Reachable, PickOK, HasGrandparents, CompactionOutputs, Big, BytesOf;
    ghost var stream;
    assert VersionOK(WithUpper()) by { BeforeUpperReachable(); ReachableOK(BeforeUpper()); StoredFacts(BeforeUpper()); }
    c := PickFile(WithUpper(), 0, Upper());
    OnlyUpper(c);
    outputs, stream := DoCompactionWork(WithUpper(), c, 3, 5, Sizes());
    CutUpper();
    OutputsAre(WithUpper(), c, 3, 5, stream, outputs, UpperStream(), [Upto(), Rest()]);
    assert VersionOK(WithLast()) by { BeforeDropReachable(); ReachableOK(BeforeDrop()); StoredFacts(BeforeDrop()); }
    d := PickFile(WithLast(), 0, Last());
    OnlyLast(d);
    outputs', stream := DoCompactionWork(WithLast(), d, 6, 8, Sizes());
    CutLast();
    OutputsAre(WithLast(), d, 6, 8, stream, outputs', LastStream(), [Merged()]);
  }

  lemma RangeOfOne(f: File, smallest: InternalKey, largest: InternalKey)
    requires IsRange([f], smallest, largest)
    ensures smallest == f.smallest && largest == f.largest
  {
  }

  lemma RangeOfTwo(f: File, g: File, start: InternalKey, limit: InternalKey)
    requires IsRange([f] + [g], start, limit)
    ensures start == f.smallest || start == g.smallest
    ensures limit == f.largest || limit == g.largest
    ensures !Less(f.smallest, start) && !Less(g.smallest, start) && !Less(limit, f.largest) && !Less(limit, g.largest)
  {
    assert f in [f] + [g] && g in [f] + [g];
  }

  /** The grandparents of two inputs with keys J and K in this run. */
  lemma OnlyGrandparents(v: Version, c: Compaction, f: File, g: File)
    requires HasGrandparents(v, c) && c.level == 0 && v[2] == [Deep()] && c.inputs0 == [f] && c.inputs1 == [g]
    requires (f.smallest.user == J || g.smallest.user == J) && f.smallest.user >= J && g.smallest.user >= J
    requires (f.largest.user == K || g.largest.user == K) && f.largest.user <= K && g.largest.user <= K
    ensures c.grandparents == [Deep()]
  {
    hide IsRange, Overlapping, BytesOf;
    var start, limit :| IsRange(c.inputs0 + c.inputs1, start, limit) &&
      c.grandparents == Overlapping(v[2], Some(start.user), Some(limit.user));
    RangeOfTwo(f, g, start, limit);
    OverlapOne(Deep(), J, K);
  }

  lemma OnlyUpper(c: Compaction)
    requires PickOK(WithUpper(), c) && HasGrandparents(WithUpper(), c) && c.level == 0 && Upper() in c.inputs0
    ensures c == MergeUpper()
  {
    hide Big, BytesOf, TotalFileSize, HasGrandparents, Overlapping, IsRange;
    OneFileOnly(c.inputs0, Upper());
    RangeOfOne(Upper(), c.smallest, c.largest);
    OverlapOne(Lower(), K, K);
    OnlyGrandparents(WithUpper(), c, Upper(), Lower());
  }

  lemma OnlyLast(c: Compaction)
    requires PickOK(WithLast(), c) && HasGrandparents(WithLast(), c) && c.level == 0 && Last() in c.inputs0
    ensures c == MergeLast()
  {
    hide Big, BytesOf, TotalFileSize, HasGrandparents, Overlapping, IsRange;
    OneFileOnly(c.inputs0, Last());
    RangeOfOne(Last(), c.smallest, c.largest);
    OverlapLast();
    OnlyGrandparents(WithLast(), c, Last(), Upto());
  }
}
