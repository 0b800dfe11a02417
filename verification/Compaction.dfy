/** The merge loop of a compaction (DBImpl::DoCompactionWork in leveldb/db/db_impl.cc, with
    IsBaseLevelForKey and ShouldStopBefore of leveldb/db/version_set.cc). */
module Compactions {
  import opened Options
  import opened Runs
  import opened Versions
  import opened Picker
  import opened Merger

  // ---------------------------------------------------------------- the input stream

  /** What the concatenating iterator over the files of one level yields. */
  function Concat(files: Level): Run {
    if files == [] then [] else Concat(files[..|files|-1]) + files[|files|-1].entries
  }

  lemma {:induction false} ConcatElements(files: Level, e: Entry)
    ensures e in Concat(files) <==> InFiles(files, e)
  {
    if files != [] {
      var n := |files| - 1;
      assert files == files[..n] + [files[n]];
      ConcatElements(files[..n], e);
      if e in files[n].entries { assert files[n] in files; }
    }
  }

  lemma {:induction false} ConcatSorted(files: Level)
    requires AllWellFormed(files) && LevelDisjoint(files)
    ensures Sorted(Concat(files))
  {
    if files != [] {
      var n := |files| - 1;
      ConcatSorted(files[..n]);
      var before, last := Concat(files[..n]), files[n];
      assert last in files;
      forall i, j | 0 <= i < |before| && 0 <= j < |last.entries| ensures Less(before[i].key, last.entries[j].key) {
        ConcatElements(files[..n], before[i]);
        var f :| f in files[..n] && before[i] in f.entries;
        var k :| 0 <= k < n && files[k] == f;
        assert f in files;
        EntryInBounds(f, before[i]);
        EntryInBounds(last, last.entries[j]);
        assert Less(files[k].largest, files[n].smallest);
      }
    }
  }

  /** MakeInputIterator: level-0 files one by one, other levels as one concatenation each. */
  function InputRuns(c: Compaction): seq<Run> {
    (if c.level == 0 then seq(|c.inputs0|, i requires 0 <= i < |c.inputs0| => c.inputs0[i].entries)
     else [Concat(c.inputs0)]) +
    (if c.inputs1 == [] then [] else [Concat(c.inputs1)])
  }

  ghost predicate InInputs(c: Compaction, e: Entry) {
    InFiles(c.inputs0, e) || InFiles(c.inputs1, e)
  }

  lemma InputRunsElements(c: Compaction, e: Entry)
    ensures InSome(InputRuns(c), e) <==> InInputs(c, e)
  {
    var runs := InputRuns(c);
    ConcatElements(c.inputs0, e);
    ConcatElements(c.inputs1, e);
    if InSome(runs, e) {
      var i :| 0 <= i < |runs| && e in runs[i];
      if c.level == 0 && i < |c.inputs0| { assert c.inputs0[i] in c.inputs0; }
    }
    if InFiles(c.inputs0, e) {
      var f :| f in c.inputs0 && e in f.entries;
      var i :| 0 <= i < |c.inputs0| && c.inputs0[i] == f;
      assert e in runs[if c.level == 0 then i else 0];
    }
    if InFiles(c.inputs1, e) {
      assert e in runs[|runs|-1];
    }
  }

  /** Runs whose entries for one key are ordered by age share no internal key. */
  lemma NewerShareNoKey(a: Run, b: Run)
    requires Newer(a, b) || Newer(b, a)
    ensures NoSharedKey(a, b)
  {
    forall i, j | 0 <= i < |a| && 0 <= j < |b| ensures a[i].key != b[j].key {
      assert a[i] in a && b[j] in b;
    }
  }

  lemma InputFilesOrdered(v: Version, c: Compaction)
    requires VersionOK(v) && PickOK(v, c)
    ensures AllWellFormed(c.inputs0) && AllWellFormed(c.inputs1) && LevelDisjoint(c.inputs1)
    ensures LevelNewer(c.inputs0, c.inputs1)
    ensures c.level == 0 ==> NewerByNumber(c.inputs0) && DistinctNumbers(c.inputs0)
  {
    OverlappingKeepsOrder(v[c.level+1], Some(c.smallest.user), Some(c.largest.user));
    assert LevelNewer(v[c.level], v[c.level+1]);
    assert AllWellFormed(v[c.level]) && AllWellFormed(v[c.level+1]);
  }

  lemma NextLevelOlder(c: Compaction, a: Run)
    requires forall f :: f in c.inputs1 ==> Newer(a, f.entries)
    ensures Newer(a, Concat(c.inputs1))
  {
    forall x, y | x in a && y in Concat(c.inputs1) && x.key.user == y.key.user
      ensures Less(x.key, y.key)
    {
      ConcatElements(c.inputs1, y);
    }
  }

  lemma InputRunsReady(v: Version, c: Compaction)
    requires VersionOK(v) && PickOK(v, c)
    ensures forall i :: 0 <= i < |InputRuns(c)| ==> Sorted(InputRuns(c)[i])
    ensures Distinct(InputRuns(c))
  {
    InputFilesOrdered(v, c);
    assert LevelSorted(c.inputs0) && (c.level > 0 ==> LevelDisjoint(c.inputs0));
    hide VersionOK, PickOK, LevelNewer, NewerByNumber, DistinctNumbers, LevelSorted, InputRuns, NoSharedKey;
    forall i | 0 <= i < |InputRuns(c)| ensures Sorted(InputRuns(c)[i]) {
      InputRunSorted(c, i);
    }
    forall i, j | 0 <= i < j < |InputRuns(c)| ensures NoSharedKey(InputRuns(c)[i], InputRuns(c)[j]) {
      InputRunsApart(c, i, j);
    }
  }

  lemma InputRunSorted(c: Compaction, i: nat)
    requires AllWellFormed(c.inputs0) && AllWellFormed(c.inputs1) && LevelDisjoint(c.inputs1)
    requires (c.level > 0 ==> LevelDisjoint(c.inputs0)) && i < |InputRuns(c)|
    ensures Sorted(InputRuns(c)[i])
  {
    ConcatSorted(c.inputs1);
    if c.level > 0 { ConcatSorted(c.inputs0); }
    else if i < |c.inputs0| { assert c.inputs0[i] in c.inputs0; }
  }

  lemma InputRunsApart(c: Compaction, i: nat, j: nat)
    requires LevelNewer(c.inputs0, c.inputs1) && LevelSorted(c.inputs0)
    requires c.level == 0 ==> NewerByNumber(c.inputs0) && DistinctNumbers(c.inputs0)
    requires i < j < |InputRuns(c)|
    ensures NoSharedKey(InputRuns(c)[i], InputRuns(c)[j])
  {
    if c.level > 0 {
      ConcatNewer(c);
      NewerShareNoKey(Concat(c.inputs0), Concat(c.inputs1));
    } else {
      assert c.inputs0[i] in c.inputs0;
      if j < |c.inputs0| {
        assert c.inputs0[j] in c.inputs0;
        Level0ShareNoKey(c.inputs0, c.inputs0[i], c.inputs0[j]);
      } else {
        NextLevelOlder(c, c.inputs0[i].entries);
        NewerShareNoKey(c.inputs0[i].entries, Concat(c.inputs1));
      }
    }
  }

  lemma ConcatNewer(c: Compaction)
    requires LevelNewer(c.inputs0, c.inputs1)
    ensures Newer(Concat(c.inputs0), Concat(c.inputs1))
  {
    forall x, y | x in Concat(c.inputs0) && y in Concat(c.inputs1) && x.key.user == y.key.user
      ensures Less(x.key, y.key)
    {
      ConcatElements(c.inputs0, x);
      ConcatElements(c.inputs1, y);
      var f :| f in c.inputs0 && x in f.entries;
      var g :| g in c.inputs1 && y in g.entries;
      assert Newer(f.entries, g.entries);
    }
  }

  lemma Level0ShareNoKey(files: Level, f: File, g: File)
    requires NewerByNumber(files) && DistinctNumbers(files)
    requires f in files && g in files && BySmallest(f, g)
    ensures NoSharedKey(f.entries, g.entries)
  {
    assert f != g;
    NewerShareNoKey(f.entries, g.entries);
  }

  // ---------------------------------------------------------------- the drop rules

  /** No file below level+1 has the user key in its range (what IsBaseLevelForKey is for). */
  ghost predicate IsBaseLevel(v: Version, level: nat, user: UserKey) {
    forall l, f :: level + 2 <= l < |v| && f in v[l] ==> !(f.smallest.user <= user <= f.largest.user)
  }

  /** Position i of the input stream is dropped: (A) it is hidden by a newer entry of its key that
      every snapshot sees, or it is a deletion that every snapshot sees and hides nothing below. */
  ghost predicate Dropped(input: Run, i: nat, snapshot: nat, v: Version, level: nat)
    requires i < |input|
  {
    || (i > 0 && input[i-1].key.user == input[i].key.user && input[i-1].key.sequence <= snapshot)
    || (input[i].key.kind == Deletion && input[i].key.sequence <= snapshot && IsBaseLevel(v, level, input[i].key.user))
  }

  /** The entries kept among the first n of the input. */
  ghost function KeptUpTo(input: Run, n: nat, snapshot: nat, v: Version, level: nat): (r: Run)
    requires n <= |input|
    ensures forall e :: e in r ==> e in input[..n]
  {
    if n == 0 then []
    else
      assert input[..n] == input[..n-1] + [input[n-1]];
      KeptUpTo(input, n - 1, snapshot, v, level) +
        (if Dropped(input, n - 1, snapshot, v, level) then [] else [input[n-1]])
  }

  ghost function KeptStream(input: Run, snapshot: nat, v: Version, level: nat): Run {
    KeptUpTo(input, |input|, snapshot, v, level)
  }

  lemma {:induction false} KeptUpToSorted(input: Run, n: nat, snapshot: nat, v: Version, level: nat)
    requires Sorted(input) && n <= |input|
    ensures Sorted(KeptUpTo(input, n, snapshot, v, level))
  {
    if n > 0 {
      KeptUpToSorted(input, n - 1, snapshot, v, level);
      var r := KeptUpTo(input, n - 1, snapshot, v, level);
      forall i | 0 <= i < |r| ensures Less(r[i].key, input[n-1].key) {
        assert r[i] in r && r[i] in input[..n-1];
      }
    }
  }

  /** An entry of the input is kept exactly if it is not dropped. */
  lemma {:induction false} KeptIfNotDropped(input: Run, n: nat, i: nat, snapshot: nat, v: Version, level: nat)
    requires Sorted(input) && i < n <= |input|
    ensures input[i] in KeptUpTo(input, n, snapshot, v, level) <==> !Dropped(input, i, snapshot, v, level)
  {
    var r := KeptUpTo(input, n - 1, snapshot, v, level);
    if i < n - 1 {
      KeptIfNotDropped(input, n - 1, i, snapshot, v, level);
      assert Less(input[i].key, input[n-1].key);
    } else {
      forall j | 0 <= j < n - 1 ensures input[j] != input[i] { assert Less(input[j].key, input[i].key); }
      assert input[i] !in input[..n-1];
    }
  }

  /** The drop rules preserve meaning. Reading the kept stream at any sequence number a live snapshot
      can have gives what reading the input stream gives, except that a deletion may turn into
      nothing found, and then no file below has the key. */
  lemma DropRulesPreserveReads(input: Run, snapshot: nat, v: Version, level: nat, user: UserKey, s: nat)
    requires Sorted(input) && snapshot <= s
    ensures var before, after := RunGet(input, user, s), RunGet(KeptStream(input, snapshot, v, level), user, s);
      before == after || (before == Deleted && after == NotFound && IsBaseLevel(v, level, user))
  {
    hide Dropped, IsBaseLevel, KeptUpTo, Sorted;
    var kept := KeptStream(input, snapshot, v, level);
    KeptUpToSorted(input, |input|, snapshot, v, level);
    RunGetFindsNewest(input, user, s);
    RunGetFindsNewest(kept, user, s);
    forall e | e in kept ensures e in input { assert e in input[..|input|]; }
    var i := LowerBound(input, SeekKey(user, s));
    if RunGet(input, user, s) != NotFound {
      KeptIfNotDropped(input, |input|, i, snapshot, v, level);
      if !Dropped(input, i, snapshot, v, level) {
        assert IsNewest(kept, user, s, input[i]);
        NewestIsFound(kept, user, s, input[i]);
      } else {
        VisibleDropped(input, i, snapshot, v, level, user, s);
        forall x | x in kept && x.key.user == user ensures x.key.sequence > s {
          var j :| 0 <= j < |input| && input[j] == x;
          KeptIfNotDropped(input, |input|, j, snapshot, v, level);
          if j > i { OlderIsDropped(input, i, j, snapshot, v, level); }
        }
      }
    }
  }

  /** A visible entry can only be dropped as a deletion that every snapshot sees. */
  lemma VisibleDropped(input: Run, i: nat, snapshot: nat, v: Version, level: nat, user: UserKey, s: nat)
    requires Sorted(input) && snapshot <= s && i < |input| && i == LowerBound(input, SeekKey(user, s))
    requires input[i].key.user == user && Dropped(input, i, snapshot, v, level)
    ensures input[i].key.kind == Deletion && input[i].key.sequence <= snapshot && IsBaseLevel(v, level, user)
    ensures forall j :: 0 <= j < i && input[j].key.user == user ==> input[j].key.sequence > s
  {
    assert forall j :: 0 <= j < i ==> Less(input[j].key, SeekKey(user, s));
  }

  /** After an entry that every snapshot sees, all entries of its key are dropped. */
  lemma {:induction false} OlderIsDropped(input: Run, i: nat, j: nat, snapshot: nat, v: Version, level: nat)
    requires Sorted(input) && i < j < |input|
    requires input[i].key.user == input[j].key.user && input[i].key.sequence <= snapshot
    ensures Dropped(input, j, snapshot, v, level)
  {
    assert Less(input[i].key, input[j].key);
    if i < j - 1 {
      assert Less(input[i].key, input[j-1].key) && Less(input[j-1].key, input[j].key);
    }
  }
}
