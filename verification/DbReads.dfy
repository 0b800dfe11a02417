/** Iterators of the database (leveldb/db/db_impl.cc and Version::AddIterators): the memtables, every
    level-0 file and one concatenation per deeper level are merged, and the user-level iterator on
    top walks exactly the live keys of the plain history. */
module DbReads {
  import opened Options
  import opened Slices
  import opened Runs
  import opened Merger
  import opened Versions
  import opened Compactions
  import opened Install
  import opened Store
  import opened ReadExact
  import opened DbImpl
  import DbIter

  /** The children for level-0 files from the i-th on. */
  function Level0Runs(files: Level, i: nat): seq<Run>
    requires i <= |files|
    decreases |files| - i
  {
    if i == |files| then [] else [files[i].entries] + Level0Runs(files, i + 1)
  }

  /** The children for the levels from l on: one concatenating iterator for each non-empty level. */
  function DeepRuns(v: Version, l: nat): seq<Run>
    requires l <= |v|
    decreases |v| - l
  {
    if l == |v| then [] else (if v[l] == [] then [] else [Concat(v[l])]) + DeepRuns(v, l + 1)
  }

  function StoreRuns(mem: Run, imm: Option<Run>, v: Version): seq<Run>
    requires |v| == NUM_LEVELS
  {
    [mem] + (if imm.Some? then [imm.value] else []) + (Level0Runs(v[0], 0) + DeepRuns(v, 1))
  }

  ghost predicate AllSorted(runs: seq<Run>) { forall i :: 0 <= i < |runs| ==> Sorted(runs[i]) }

  /** No entry of the runs has a key of run r. */
  ghost predicate NoneShared(r: Run, runs: seq<Run>) {
    forall x, y :: x in r && InSome(runs, y) ==> x.key != y.key
  }

  lemma InSomeJoin(a: seq<Run>, b: seq<Run>, e: Entry)
    ensures InSome(a + b, e) <==> InSome(a, e) || InSome(b, e)
  {
    if InSome(a + b, e) {
      var i :| 0 <= i < |a + b| && e in (a + b)[i];
      if i >= |a| { assert e in b[i - |a|]; }
    }
    if InSome(a, e) { var i :| 0 <= i < |a| && e in a[i]; assert e in (a + b)[i]; }
    if InSome(b, e) { var i :| 0 <= i < |b| && e in b[i]; assert e in (a + b)[|a| + i]; }
  }

  lemma PutBefore(r: Run, runs: seq<Run>)
    requires Sorted(r) && AllSorted(runs) && Distinct(runs) && NoneShared(r, runs)
    ensures AllSorted([r] + runs) && Distinct([r] + runs)
    ensures forall e :: InSome([r] + runs, e) <==> e in r || InSome(runs, e)
  {
    var all := [r] + runs;
    forall i, j | 0 <= i < j < |all| ensures NoSharedKey(all[i], all[j]) {
      assert all[j] == runs[j-1];
      if i == 0 { assert forall y :: y in runs[j-1] ==> InSome(runs, y); }
    }
    forall e ensures InSome(all, e) <==> e in r || InSome(runs, e) {
      InSomeJoin([r], runs, e);
      if e in r { assert e in [r][0]; }
    }
  }

  ghost predicate InLevelsFrom(v: Version, l: nat, e: Entry) {
    exists m :: l <= m < |v| && InFiles(v[m], e)
  }

  lemma {:induction false} DeepRunsReady(v: Version, l: nat)
    requires VersionOK(v) && 1 <= l <= NUM_LEVELS
    ensures AllSorted(DeepRuns(v, l)) && Distinct(DeepRuns(v, l))
    ensures forall e :: InSome(DeepRuns(v, l), e) <==> InLevelsFrom(v, l, e)
    decreases NUM_LEVELS - l
  {
    if l < NUM_LEVELS {
      DeepRunsReady(v, l + 1);
      var r, rest := Concat(v[l]), DeepRuns(v, l + 1);
      LevelFacts(v, l);
      ConcatSorted(v[l]);
      forall e ensures e in r <==> InFiles(v[l], e) { ConcatElements(v[l], e); }
      forall x, y | x in r && InSome(rest, y) ensures x.key != y.key {
        var m :| l + 1 <= m < NUM_LEVELS && InFiles(v[m], y);
        LevelsShareNoKey(v, l, m, x, y);
      }
      hide VersionOK, Concat;
      PutBefore(r, rest);
      if v[l] == [] { assert forall e :: !InFiles(v[l], e); assert DeepRuns(v, l) == rest; }
    }
  }

  lemma LevelsShareNoKey(v: Version, l: nat, m: nat, x: Entry, y: Entry)
    requires VersionOK(v) && l < m < NUM_LEVELS && InFiles(v[l], x) && InFiles(v[m], y)
    ensures x.key != y.key
  {
    var f :| f in v[l] && x in f.entries;
    var g :| g in v[m] && y in g.entries;
    Ordered(v, l, m, f, g);
  }

  lemma FileIsSorted(v: Version, i: nat)
    requires VersionOK(v) && i < |v[0]|
    ensures v[0][i] in v[0] && WellFormed(v[0][i]) && Sorted(v[0][i].entries)
  {
    LevelFacts(v, 0);
  }

  lemma {:induction false} Level0RunsReady(v: Version, i: nat)
    requires VersionOK(v) && i <= |v[0]|
    ensures AllSorted(Level0Runs(v[0], i) + DeepRuns(v, 1)) && Distinct(Level0Runs(v[0], i) + DeepRuns(v, 1))
    ensures forall e :: InSome(Level0Runs(v[0], i) + DeepRuns(v, 1), e) <==>
              InFiles(v[0][i..], e) || InLevelsFrom(v, 1, e)
    decreases |v[0]| - i
  {
    var files, deep := v[0], DeepRuns(v, 1);
    if i == |files| {
      DeepRunsReady(v, 1);
      assert Level0Runs(files, i) + deep == deep;
    } else {
      var f, rest := files[i], Level0Runs(files, i + 1) + deep;
      Level0RunsReady(v, i + 1);
      assert Level0Runs(files, i) + deep == [f.entries] + rest;
      FileIsSorted(v, i);
      hide VersionOK, WellFormed, Sorted, Distinct, InLevelsFrom, Level0Runs, DeepRuns, AllSorted;
      forall x, y | x in f.entries && InSome(rest, y) ensures x.key != y.key {
        Level0Apart(v, i, x, y);
      }
      PutBefore(f.entries, rest);
      assert files[i..] == [f] + files[i+1..];
    }
  }

  lemma Level0Apart(v: Version, i: nat, x: Entry, y: Entry)
    requires VersionOK(v) && i < |v[0]| && x in v[0][i].entries
    requires InFiles(v[0][i+1..], y) || InLevelsFrom(v, 1, y)
    ensures x.key != y.key
  {
    var files := v[0];
    if InFiles(files[i+1..], y) {
      var g :| g in files[i+1..] && y in g.entries;
      var j :| i + 1 <= j < |files| && files[j] == g;
      Level0ShareNone(v, i, j, x, y);
    } else {
      var m :| 1 <= m < NUM_LEVELS && InFiles(v[m], y);
      assert files[i] in files && InFiles(v[0], x);
      LevelsShareNoKey(v, 0, m, x, y);
    }
  }

  lemma Level0ShareNone(v: Version, i: nat, j: nat, x: Entry, y: Entry)
    requires VersionOK(v) && i < j < |v[0]| && x in v[0][i].entries && y in v[0][j].entries
    ensures x.key != y.key
  {
    var f, g := v[0][i], v[0][j];
    LevelFacts(v, 0);
    assert f in v[0] && g in v[0];
    assert f != g by { assert LevelSorted(v[0]); }
    assert NewerByNumber(v[0]);
    assert f.number > g.number || g.number > f.number;
  }

  /** The children of the merging iterator are sorted, share no key, and hold exactly the store. */
  lemma StoreRunsReady(st: Store, runs: seq<Run>)
    requires StoreOK(st) && |st.version| == NUM_LEVELS && runs == StoreRuns(st.mem, st.imm, st.version)
    ensures AllSorted(runs) && Distinct(runs) && forall e :: InSome(runs, e) <==> InStore(st, e)
  {
    hide StoreOK, VersionOK, Sorted, Distinct, AllSorted, InVersion, Level0Runs, DeepRuns, InSome, WellFormed;
    StoreFacts(st);
    var files := Level0Runs(st.version[0], 0) + DeepRuns(st.version, 1);
    FileRunsReady(st.version);
    MemRunsApart(st);
    if st.imm.Some? {
      PutBefore(st.imm.value, files);
      PutBefore(st.mem, [st.imm.value] + files);
      assert runs == [st.mem] + ([st.imm.value] + files);
    } else {
      PutBefore(st.mem, files);
      assert runs == [st.mem] + files;
    }
  }

  lemma FileRunsReady(v: Version)
    requires VersionOK(v)
    ensures AllSorted(Level0Runs(v[0], 0) + DeepRuns(v, 1)) && Distinct(Level0Runs(v[0], 0) + DeepRuns(v, 1))
    ensures forall e :: InSome(Level0Runs(v[0], 0) + DeepRuns(v, 1), e) <==> InVersion(v, e)
  {
    Level0RunsReady(v, 0);
    assert v[0][0..] == v[0];
    hide VersionOK, AllSorted, Distinct, Level0Runs, DeepRuns;
    forall e ensures InVersion(v, e) <==> InFiles(v[0], e) || InLevelsFrom(v, 1, e) {
      if InVersion(v, e) { var l :| 0 <= l < |v| && InFiles(v[l], e); }
    }
  }

  lemma MemRunsApart(st: Store)
    requires StoreOK(st)
    ensures Sorted(st.mem) && Sorted(ImmRun(st))
    ensures forall x, y :: (x in st.mem || x in ImmRun(st)) && InVersion(st.version, y) ==> x.key != y.key
    ensures forall x, y :: x in st.mem && y in ImmRun(st) ==> x.key != y.key
  {
    assert Layered(st);
    hide StoreOK, VersionOK;
    forall x, y | (x in st.mem || x in ImmRun(st)) && InVersion(st.version, y) ensures x.key != y.key {
      if x.key.user == y.key.user { MemAboveFiles(st, x, y); }
    }
  }

  /** The list over a merge of the store is the view of the history. */
  lemma MergedViewIsPlain(st: Store, merged: Run, s: nat, user: UserKey, value: Bytes)
    requires StoreOK(st) && Floor(st) <= s <= |st.history| && Sorted(merged)
    requires forall e :: e in merged <==> InStore(st, e)
    ensures (user, value) in DbIter.LiveList(merged, s) <==> PlainGet(st.history, user, s) == Some(value)
  {
    DbIter.LiveListIsTheView(merged, s, user, value);
    RunGetFindsNewest(merged, user, s);
    assert SnapshotsOK(st) && StoredFromHistory(st) && Retained(st);
    if RunGet(merged, user, s) == NotFound {
      NothingStoredIsNothing(st, user, s);
    } else {
      var e := merged[LowerBound(merged, SeekKey(user, s))];
      forall x | InStore(st, x) && x.key.user == user && x.key.sequence <= s
        ensures x.key.sequence <= e.key.sequence
      {
        assert x in merged;
      }
      NewestStoredIsLatest(st, user, s, e);
    }
  }

  /** `iter` is a cursor over exactly the keys that are live in the history at `s`, in order. */
  ghost predicate Walks(entries: seq<(UserKey, Bytes)>, history: History, s: nat)
    requires s <= |history|
  {
    && (forall i, j :: 0 <= i < j < |entries| ==> entries[i].0 < entries[j].0)
    && (forall user, value :: (user, value) in entries <==> PlainGet(history, user, s) == Some(value))
  }

  lemma MergeWalks(st: Store, merged: Run, s: nat)
    requires StoreOK(st) && Floor(st) <= s <= |st.history| && Sorted(merged)
    requires forall e :: e in merged <==> InStore(st, e)
    ensures Walks(DbIter.LiveList(merged, s), st.history, s)
  {
    var entries := DbIter.LiveList(merged, s);
    forall i, j | 0 <= i < j < |entries| ensures entries[i].0 < entries[j].0 {
      DbIter.LiveListIncreasing(merged, s, i, j);
    }
    forall user, value ensures (user, value) in entries <==> PlainGet(st.history, user, s) == Some(value) {
      MergedViewIsPlain(st, merged, s, user, value);
    }
  }

  /** NewIterator at a live snapshot, or at the latest sequence number. */
  method NewIterator(db: DB, snapshot: Option<nat>) returns (iter: DbIter.DbIter)
    requires db.Valid() && (snapshot.Some? ==> snapshot.value in db.snapshots)
    ensures fresh(iter) && fresh(iter.iter) && iter.Valid() && !iter.valid
    ensures iter.sequence == (if snapshot.Some? then snapshot.value else db.lastSequence) <= |db.history|
    ensures Walks(iter.Entries(), db.history, iter.sequence)
  {
    ghost var st := db.State();
    var s := if snapshot.Some? then snapshot.value else db.lastSequence;
    ReaderInRange(st, s);
    var runs := StoreRuns(db.mem, db.imm, db.versions.current);
    StoreRunsReady(st, runs);
    hide StoreOK, Walks, DbIter.LiveList;
    var internal := new MergingIterator(runs);
    forall e ensures e in internal.merged <==> InStore(st, e) { MergeAllElements(runs, e); }
    MergeWalks(st, internal.merged, s);
    iter := new DbIter.DbIter(internal, s);
  }
}
