/** What installing a compaction does to a version (InstallCompactionResults and the trivial move in
    leveldb/db/db_impl.cc): which hypothesis the level invariants need, and that they are kept. */
module Install {
  import opened Options
  import opened Runs
  import opened Versions
  import opened Builder
  import opened Picker
  import opened Compactions

  /** The edit of a finished compaction: AddInputDeletions, then the outputs into level+1. */
  ghost function CompactionEdit(c: Compaction, outputs: Level): VersionEdit {
    VersionEdit(None,
                (set f | f in c.inputs0 :: LevelNumber(c.level, f.number)) +
                (set f | f in c.inputs1 :: LevelNumber(c.level + 1, f.number)),
                seq(|outputs|, i requires 0 <= i < |outputs| => LevelFile(c.level + 1, outputs[i])))
  }

  /** The files of the compaction's two levels that it leaves behind. */
  ghost predicate LeftBehind(v: Version, c: Compaction, f: File)
    requires PickOK(v, c)
  {
    (f in v[c.level] && f !in c.inputs0) || (f in v[c.level+1] && f !in c.inputs1)
  }

  /** No file left behind in the level of an input continues the input's last user key. This is what
      the pickers of this version of the code do not check. */
  ghost predicate BoundaryOK(v: Version, c: Compaction)
    requires PickOK(v, c)
  {
    && (c.level > 0 ==> forall f, g :: f in c.inputs0 && g in v[c.level] && g !in c.inputs0 ==> !Continues(f, g))
    && (forall f, g :: f in c.inputs1 && g in v[c.level+1] && g !in c.inputs1 ==> !Continues(f, g))
  }

  /** `g` starts with the user key `f` ends with, at an older entry. */
  ghost predicate Continues(f: File, g: File) {
    f.largest.user == g.smallest.user && Less(f.largest, g.smallest)
  }

  /** If no two adjacent files of a level share a user key, every pick meets BoundaryOK. */
  ghost predicate UserDisjoint(files: Level) {
    forall f, g :: f in files && g in files && f != g ==> !Continues(f, g)
  }

  lemma UserDisjointSuffices(v: Version, c: Compaction)
    requires PickOK(v, c) && forall l :: 1 <= l < NUM_LEVELS ==> UserDisjoint(v[l])
    ensures BoundaryOK(v, c)
  {
    forall f, g | f in c.inputs1 && g in v[c.level+1] && g !in c.inputs1 ensures !Continues(f, g) {
      assert f in v[c.level+1];
    }
    if c.level > 0 {
      forall f, g | f in c.inputs0 && g in v[c.level] && g !in c.inputs0 ensures !Continues(f, g) {
        assert f in v[c.level];
      }
    }
  }

  /** Two files of one level >= 1 that do not share a boundary user key: entries of `g` for a user
      key of `f` are newer. */
  lemma SameLevelNewer(files: Level, f: File, g: File)
    requires AllWellFormed(files) && LevelDisjoint(files) && f in files && g in files && f != g
    requires !Continues(f, g)
    ensures Newer(g.entries, f.entries)
  {
    var i :| 0 <= i < |files| && files[i] == f;
    var j :| 0 <= j < |files| && files[j] == g;
    forall x, y | x in g.entries && y in f.entries && x.key.user == y.key.user ensures Less(x.key, y.key) {
      EntryInBounds(g, x);
      EntryInBounds(f, y);
      assert if i < j then Less(f.largest, g.smallest) else Less(g.largest, f.smallest);
    }
  }

  /** A left-behind file of the next level does not meet the user keys of inputs0. */
  lemma NextLevelAvoidsInputs0(v: Version, c: Compaction, f: File, g: File)
    requires PickOK(v, c) && WellFormed(f) && WellFormed(g)
    requires f in c.inputs0 && g in v[c.level+1] && g !in c.inputs1
    ensures g.largest.user < f.smallest.user || f.largest.user < g.smallest.user
    ensures Newer(g.entries, f.entries)
    ensures Less(g.largest, f.smallest) <==> g.largest.user < c.smallest.user
    ensures Less(f.largest, g.smallest) <==> c.largest.user < g.smallest.user
  {
    assert !Overlaps(g, Some(c.smallest.user), Some(c.largest.user));
    assert !Less(f.smallest, c.smallest) && !Less(c.largest, f.largest);
    EntryInBounds(g, g.entries[0]);
    EntryInBounds(f, f.entries[0]);
    forall x, y | x in g.entries && y in f.entries ensures x.key.user != y.key.user {
      EntryInBounds(g, x);
      EntryInBounds(f, y);
    }
  }

  /** A left-behind file of level 0 does not meet the user keys of inputs0. */
  lemma Level0AvoidsInputs0(v: Version, c: Compaction, f: File, g: File)
    requires PickOK(v, c) && c.level == 0 && WellFormed(f) && WellFormed(g)
    requires f in c.inputs0 && g in v[0] && g !in c.inputs0
    ensures Newer(g.entries, f.entries)
  {
    assert !Overlaps(g, Some(c.smallest.user), Some(c.largest.user));
    assert !Less(f.smallest, c.smallest) && !Less(c.largest, f.largest);
    forall x, y | x in g.entries && y in f.entries ensures x.key.user != y.key.user {
      EntryInBounds(g, x);
      EntryInBounds(f, y);
    }
  }

  ghost predicate IsInput(c: Compaction, f: File) { f in c.inputs0 || f in c.inputs1 }

  /** With BoundaryOK, everything left behind is newer, user key by user key, than every input. */
  lemma LeftoversAreNewer(v: Version, c: Compaction, f: File, g: File)
    requires VersionOK(v) && PickOK(v, c) && BoundaryOK(v, c)
    requires IsInput(c, f) && LeftBehind(v, c, g)
    ensures Newer(g.entries, f.entries)
  {
    LevelFacts(v, c.level);
    LevelFacts(v, c.level + 1);
    if f in c.inputs0 && g in v[c.level+1] && g !in c.inputs1 {
      NextLevelAvoidsInputs0(v, c, f, g);
    } else if f in c.inputs0 {
      if c.level == 0 { Level0AvoidsInputs0(v, c, f, g); }
      else { SameLevelNewer(v[c.level], f, g); }
    } else if g in v[c.level] && g !in c.inputs0 {
      assert LevelNewer(v[c.level], v[c.level+1]);
    } else {
      SameLevelNewer(v[c.level+1], f, g);
    }
  }

  /** Left-behind files of the next level lie entirely before or entirely after all inputs, so no
      output, wherever the stream is cut, can overlap one. Needs no hypothesis on boundaries. */
  lemma OutsideTheHull(v: Version, c: Compaction, g: File)
    requires VersionOK(v) && PickOK(v, c) && g in v[c.level+1] && g !in c.inputs1
    ensures (forall f :: IsInput(c, f) ==> Less(g.largest, f.smallest)) ||
            (forall f :: IsInput(c, f) ==> Less(f.largest, g.smallest))
  {
    LevelFacts(v, c.level);
    LevelFacts(v, c.level + 1);
    assert !Overlaps(g, Some(c.smallest.user), Some(c.largest.user));
    hide VersionOK;
    forall f | f in c.inputs0
      ensures Less(g.largest, f.smallest) <==> g.largest.user < c.smallest.user
      ensures Less(f.largest, g.smallest) <==> c.largest.user < g.smallest.user
    {
      NextLevelAvoidsInputs0(v, c, f, g);
    }
    forall f | f in c.inputs1
      ensures g.largest.user < c.smallest.user ==> Less(g.largest, f.smallest)
      ensures c.largest.user < g.smallest.user ==> Less(f.largest, g.smallest)
    {
      assert f in v[c.level+1] && Overlaps(f, Some(c.smallest.user), Some(c.largest.user));
      DisjointPair(v[c.level+1], f, g);
      EntryInBounds(g, g.entries[0]);
      EntryInBounds(f, f.entries[0]);
    }
  }

  lemma DisjointPair(files: Level, f: File, g: File)
    requires LevelDisjoint(files) && f in files && g in files && f != g
    ensures Less(f.largest, g.smallest) || Less(g.largest, f.smallest)
  {
    var i :| 0 <= i < |files| && files[i] == f;
    var j :| 0 <= j < |files| && files[j] == g;
    assert i < j || j < i;
  }

  // ---------------------------------------------------------------- the installed version

  /** After the installation the file is in level l. */
  ghost predicate AfterInstall(v: Version, c: Compaction, outputs: Level, l: nat, f: File)
    requires PickOK(v, c) && l < NUM_LEVELS
  {
    if l == c.level then f in v[l] && f !in c.inputs0
    else if l == c.level + 1 then (f in v[l] && f !in c.inputs1) || f in outputs
    else f in v[l]
  }

  /** v' is v with the inputs gone and the outputs in level+1. */
  ghost predicate Installed(v: Version, c: Compaction, outputs: Level, v': Version)
    requires PickOK(v, c)
  {
    && |v'| == NUM_LEVELS
    && (forall l :: 0 <= l < NUM_LEVELS ==> LevelSorted(v'[l]))
    && (forall l, f :: 0 <= l < NUM_LEVELS ==> (f in v'[l] <==> AfterInstall(v, c, outputs, l, f)))
  }

  lemma EditInstalls(v: Version, c: Compaction, outputs: Level, v': Version)
    requires VersionOK(v) && PickOK(v, c) && Applied(v, CompactionEdit(c, outputs), v')
    ensures Installed(v, c, outputs, v')
  {
    var edit := CompactionEdit(c, outputs);
    LevelFacts(v, c.level);
    LevelFacts(v, c.level + 1);
    AppliedMeans(v, edit, v');
    hide VersionOK, InEdited, Applied, CompactionEdit, LevelSorted, AfterInstall;
    forall l, f | 0 <= l < NUM_LEVELS ensures f in v'[l] <==> AfterInstall(v, c, outputs, l, f) {
      EditMeaning(v, c, outputs, l, f);
      assert f in v'[l] <==> InEdited(v[l], edit, l, f);
    }
  }

  lemma AppliedMeans(v: Version, edit: VersionEdit, v': Version)
    requires Applied(v, edit, v')
    ensures |v'| == NUM_LEVELS
    ensures forall l :: 0 <= l < NUM_LEVELS ==> LevelSorted(v'[l])
    ensures forall l, f :: 0 <= l < NUM_LEVELS ==> (f in v'[l] <==> InEdited(v[l], edit, l, f))
  {
  }

  lemma EditMeaning(v: Version, c: Compaction, outputs: Level, l: nat, f: File)
    requires PickOK(v, c) && l < NUM_LEVELS
    requires DistinctNumbers(v[c.level]) && DistinctNumbers(v[c.level+1])
    ensures InEdited(v[l], CompactionEdit(c, outputs), l, f) <==> AfterInstall(v, c, outputs, l, f)
  {
    var edit := CompactionEdit(c, outputs);
    assert forall g :: g in c.inputs0 ==> g in v[c.level];
    assert forall g :: g in c.inputs1 ==> g in v[c.level+1];
    hide PickOK;
    if LevelFile(l, f) in edit.newFiles {
      var i :| 0 <= i < |edit.newFiles| && edit.newFiles[i] == LevelFile(l, f);
      assert outputs[i] == f;
    }
    if f in outputs {
      var i :| 0 <= i < |outputs| && outputs[i] == f;
      assert edit.newFiles[i] == LevelFile(c.level + 1, f);
    }
  }

  /** The outputs are well formed, disjoint, made of input entries, and numbered so that no other
      file of the version has their number once the inputs are gone. */
  ghost predicate GoodOutputs(v: Version, c: Compaction, outputs: Level)
    requires PickOK(v, c)
  {
    && LevelDisjoint(outputs) && AllWellFormed(outputs) && DistinctNumbers(outputs)
    && (forall f, e :: f in outputs && e in f.entries ==> InInputs(c, e))
    && (forall l, f, g :: 0 <= l < NUM_LEVELS && g in v[l] && !IsInput(c, g) && f in outputs ==> f.number != g.number)
  }

  /** An output entry comes from an input file. */
  lemma OutputEntry(v: Version, c: Compaction, outputs: Level, f: File, e: Entry) returns (g: File)
    requires PickOK(v, c) && GoodOutputs(v, c, outputs) && f in outputs && e in f.entries
    ensures IsInput(c, g) && e in g.entries
  {
    assert InInputs(c, e);
    if InFiles(c.inputs0, e) { g :| g in c.inputs0 && e in g.entries; }
    else { g :| g in c.inputs1 && e in g.entries; }
  }

  lemma OutputsApart(v: Version, c: Compaction, outputs: Level, f: File, g: File)
    requires VersionOK(v) && PickOK(v, c) && GoodOutputs(v, c, outputs)
    requires f in outputs && g in v[c.level+1] && g !in c.inputs1
    ensures Apart(f, g)
  {
    OutsideTheHull(v, c, g);
    assert WellFormed(f);
    InputsWellFormed(v, c);
    hide VersionOK, PickOK, Less, Sorted;
    var h := OutputEntry(v, c, outputs, f, f.entries[0]);
    var k := OutputEntry(v, c, outputs, f, f.entries[|f.entries|-1]);
    KeyBetween(g, h, f.entries[0]);
    KeyBetween(g, k, f.entries[|f.entries|-1]);
  }

  lemma InputsWellFormed(v: Version, c: Compaction)
    requires VersionOK(v) && PickOK(v, c)
    ensures forall f :: IsInput(c, f) ==> WellFormed(f)
  {
    LevelFacts(v, c.level);
    LevelFacts(v, c.level + 1);
  }

  lemma KeyBetween(g: File, h: File, e: Entry)
    requires WellFormed(h) && e in h.entries
    ensures Less(g.largest, h.smallest) ==> Less(g.largest, e.key)
    ensures Less(h.largest, g.smallest) ==> Less(e.key, g.smallest)
  {
    EntryInBounds(h, e);
  }

  /** Whatever was picked, the files of a level >= 1 are pairwise apart afterwards. */
  lemma StaysApartInLevel(v: Version, c: Compaction, outputs: Level, l: nat, f: File, g: File)
    requires VersionOK(v) && PickOK(v, c) && GoodOutputs(v, c, outputs) && 0 < l < NUM_LEVELS
    requires AfterInstall(v, c, outputs, l, f) && AfterInstall(v, c, outputs, l, g)
    ensures Apart(f, g)
  {
    LevelFacts(v, l);
    if l == c.level + 1 && f in outputs && g in outputs {
      if f != g { DisjointPair(outputs, f, g); }
    } else if l == c.level + 1 && f in outputs {
      OutputsApart(v, c, outputs, f, g);
    } else if l == c.level + 1 && g in outputs {
      OutputsApart(v, c, outputs, g, f);
    } else if f != g {
      DisjointPair(v[l], f, g);
    }
  }

  /** Levels >= 1 stay sorted and disjoint by internal key, whatever was picked. */
  lemma LevelsStayDisjoint(v: Version, c: Compaction, outputs: Level, v': Version, l: nat)
    requires VersionOK(v) && PickOK(v, c) && GoodOutputs(v, c, outputs) && Installed(v, c, outputs, v')
    requires l < NUM_LEVELS
    ensures AllWellFormed(v'[l]) && DistinctNumbers(v'[l])
    ensures l > 0 ==> LevelDisjoint(v'[l])
  {
    LevelFacts(v, l);
    forall i, j | 0 <= i < j < |v'[l]| && l > 0 ensures Less(v'[l][i].largest, v'[l][j].smallest) {
      assert v'[l][i] in v'[l] && v'[l][j] in v'[l];
      assert BySmallest(v'[l][i], v'[l][j]);
      StaysApartInLevel(v, c, outputs, l, v'[l][i], v'[l][j]);
      SortedApart(v'[l][i], v'[l][j]);
    }
    forall f, g | f in v'[l] && g in v'[l] && f != g ensures f.number != g.number {
      if l == c.level + 1 && f in outputs && g !in outputs { assert g in v[l] && g !in c.inputs1; NotAnInput(v, c, l, g); }
      if l == c.level + 1 && g in outputs && f !in outputs { assert f in v[l] && f !in c.inputs1; NotAnInput(v, c, l, f); }
    }
  }

  /** A file that stays in its level is no input. */
  lemma NotAnInput(v: Version, c: Compaction, l: nat, g: File)
    requires VersionOK(v) && PickOK(v, c) && l < NUM_LEVELS && g in v[l]
    requires l == c.level ==> g !in c.inputs0
    requires l == c.level + 1 ==> g !in c.inputs1
    ensures !IsInput(c, g)
  {
    assert forall f :: f in c.inputs0 ==> f in v[c.level];
    assert forall f :: f in c.inputs1 ==> f in v[c.level+1];
    assert l < c.level ==> NoSharedNumber(v[l], v[c.level]);
    assert c.level < l ==> NoSharedNumber(v[c.level], v[l]);
    assert l < c.level + 1 ==> NoSharedNumber(v[l], v[c.level+1]);
    assert c.level + 1 < l ==> NoSharedNumber(v[c.level+1], v[l]);
  }

  /** The level a file of the inputs is in. */
  ghost function InputLevel(c: Compaction, h: File): nat {
    if h in c.inputs0 then c.level else c.level + 1
  }

  lemma InputIsInLevel(v: Version, c: Compaction, h: File)
    requires PickOK(v, c) && IsInput(c, h)
    ensures InputLevel(c, h) < NUM_LEVELS && h in v[InputLevel(c, h)]
  {
  }

  lemma Ordered(v: Version, l: nat, m: nat, f: File, g: File)
    requires VersionOK(v) && l < m < NUM_LEVELS && f in v[l] && g in v[m]
    ensures Newer(f.entries, g.entries) && f.number != g.number
  {
    assert LevelNewer(v[l], v[m]) && NoSharedNumber(v[l], v[m]);
  }

  /** The files left behind in the inputs' level are newer, key by key, than the outputs. */
  ghost predicate OutputsOrdered(v: Version, c: Compaction, outputs: Level)
    requires PickOK(v, c)
  {
    forall g, o :: g in v[c.level] && g !in c.inputs0 && o in outputs ==> Newer(g.entries, o.entries)
  }

  /** A file that stays above the outputs is newer than every one of them. */
  lemma AboveOutputs(v: Version, c: Compaction, outputs: Level, l: nat, f: File, g: File)
    requires VersionOK(v) && PickOK(v, c) && OutputsOrdered(v, c, outputs) && GoodOutputs(v, c, outputs)
    requires l <= c.level && AfterInstall(v, c, outputs, l, f) && g in outputs
    ensures Newer(f.entries, g.entries)
  {
    if l < c.level {
      forall x, y | x in f.entries && y in g.entries && x.key.user == y.key.user ensures Less(x.key, y.key) {
        var h := OutputEntry(v, c, outputs, g, y);
        InputIsInLevel(v, c, h);
        Ordered(v, l, InputLevel(c, h), f, h);
      }
    }
  }

  /** Shallower files stay newer, and numbers stay distinct across levels. */
  lemma StaysOrdered(v: Version, c: Compaction, outputs: Level, l: nat, m: nat, f: File, g: File)
    requires VersionOK(v) && PickOK(v, c) && OutputsOrdered(v, c, outputs) && GoodOutputs(v, c, outputs)
    requires l < m < NUM_LEVELS && AfterInstall(v, c, outputs, l, f) && AfterInstall(v, c, outputs, m, g)
    ensures Newer(f.entries, g.entries) && f.number != g.number
  {
    if l == c.level + 1 && f in outputs {
      NotAnInput(v, c, m, g);
      forall x, y | x in f.entries && y in g.entries && x.key.user == y.key.user ensures Less(x.key, y.key) {
        var h := OutputEntry(v, c, outputs, f, x);
        InputIsInLevel(v, c, h);
        Ordered(v, InputLevel(c, h), m, h, g);
      }
    } else if m == c.level + 1 && g in outputs {
      NotAnInput(v, c, l, f);
      AboveOutputs(v, c, outputs, l, f, g);
    } else {
      Ordered(v, l, m, f, g);
    }
  }

  /** The version invariant survives an installation exactly if the files left behind above the outputs
      are newer than they. */
  lemma InstallVersionExact(v: Version, c: Compaction, outputs: Level, v': Version)
    requires VersionOK(v) && PickOK(v, c) && GoodOutputs(v, c, outputs) && Installed(v, c, outputs, v')
    ensures VersionOK(v') <==> OutputsOrdered(v, c, outputs)
  {
    if OutputsOrdered(v, c, outputs) {
      InstallKeepsVersionOK(v, c, outputs, v');
    } else {
      var g, o :| g in v[c.level] && g !in c.inputs0 && o in outputs && !Newer(g.entries, o.entries);
      assert AfterInstall(v, c, outputs, c.level, g) && AfterInstall(v, c, outputs, c.level + 1, o);
      assert g in v'[c.level] && o in v'[c.level+1];
      assert !LevelNewer(v'[c.level], v'[c.level+1]);
    }
  }

  lemma InstallKeepsVersionOK(v: Version, c: Compaction, outputs: Level, v': Version)
    requires VersionOK(v) && PickOK(v, c) && OutputsOrdered(v, c, outputs)
    requires GoodOutputs(v, c, outputs) && Installed(v, c, outputs, v')
    ensures VersionOK(v')
  {
    hide GoodOutputs, LevelSorted, LevelDisjoint, OutputsOrdered, AllWellFormed;
    forall l | 0 <= l < NUM_LEVELS
      ensures AllWellFormed(v'[l]) && DistinctNumbers(v'[l]) && (l > 0 ==> LevelDisjoint(v'[l]))
    {
      LevelsStayDisjoint(v, c, outputs, v', l);
    }
    forall l, m, f, g | 0 <= l < m < NUM_LEVELS && f in v'[l] && g in v'[m]
      ensures Newer(f.entries, g.entries) && f.number != g.number
    {
      StaysOrdered(v, c, outputs, l, m, f, g);
    }
    assert NewerByNumber(v'[0]) by {
      assert NewerByNumber(v[0]);
      assert forall f :: f in v'[0] ==> AfterInstall(v, c, outputs, 0, f);
    }
  }

  /** A file left behind that has something older than an input for the same key continues that input. */
  lemma OlderLeftContinues(v: Version, c: Compaction, h: File, g: File, x: Entry, y: Entry)
    requires VersionOK(v) && PickOK(v, c) && IsInput(c, h) && LeftBehind(v, c, g)
    requires x in h.entries && y in g.entries && x.key.user == y.key.user && Less(x.key, y.key)
    ensures Continues(h, g) && x.key.user == h.largest.user
    ensures h in c.inputs0 <==> g in v[c.level]
    ensures InputLevel(c, h) < NUM_LEVELS && h in v[InputLevel(c, h)] && g in v[InputLevel(c, h)] && InputLevel(c, h) > 0
  {
    LevelFacts(v, c.level);
    LevelFacts(v, c.level + 1);
    InputIsInLevel(v, c, h);
    SameLevels(v, c, h, g);
    assert !Newer(g.entries, h.entries) && LevelNewer(v[c.level], v[c.level+1]);
    if h in c.inputs0 && g in v[c.level+1] && g !in c.inputs1 {
      NextLevelAvoidsInputs0(v, c, h, g);
      assert false;
    } else if h in c.inputs0 {
      if c.level == 0 {
        Level0AvoidsInputs0(v, c, h, g);
        assert false;
      } else {
        SharedKeyContinues(v[c.level], h, g, x, y);
      }
    } else if g in v[c.level] && g !in c.inputs0 {
      assert false;
    } else {
      SharedKeyContinues(v[c.level+1], h, g, x, y);
    }
  }

  /** An entry of an input is in no file that stays. */
  lemma InputEntryIsElsewhere(v: Version, c: Compaction, h: File, x: Entry, l: nat, f: File)
    requires VersionOK(v) && PickOK(v, c) && IsInput(c, h) && x in h.entries
    requires l < NUM_LEVELS && f in v[l] && !IsInput(c, f)
    ensures forall y :: y in f.entries ==> y.key != x.key
  {
    InputIsInLevel(v, c, h);
    hide PickOK, VersionOK, Newer;
    var m := InputLevel(c, h);
    assert h != f;
    if l < m {
      Ordered(v, l, m, f, h);
      NewerDiffer(f.entries, h.entries);
    } else if m < l {
      Ordered(v, m, l, h, f);
      NewerDiffer(h.entries, f.entries);
    } else {
      ApartInLevel(v, l, h, f);
    }
  }

  lemma NewerDiffer(a: Run, b: Run)
    requires Newer(a, b)
    ensures forall x, y :: x in a && y in b ==> x.key != y.key
  {
  }

  lemma ApartInLevel(v: Version, l: nat, h: File, f: File)
    requires VersionOK(v) && l < NUM_LEVELS && h in v[l] && f in v[l] && h != f
    ensures forall x, y :: x in h.entries && y in f.entries ==> x.key != y.key
  {
    LevelFacts(v, l);
    if l == 0 {
      assert NewerByNumber(v[0]);
      if h.number > f.number { NewerDiffer(h.entries, f.entries); } else { NewerDiffer(f.entries, h.entries); }
    } else {
      DisjointPair(v[l], h, f);
      hide VersionOK;
      forall x, y | x in h.entries && y in f.entries ensures x.key != y.key {
        EntryInBounds(h, x);
        EntryInBounds(f, y);
      }
    }
  }

  /** No file is in both levels of a compaction. */
  lemma SameLevels(v: Version, c: Compaction, h: File, g: File)
    requires VersionOK(v) && PickOK(v, c)
    ensures h in c.inputs0 ==> h !in v[c.level+1]
    ensures g in v[c.level] ==> g !in v[c.level+1]
  {
    assert NoSharedNumber(v[c.level], v[c.level+1]);
  }

  /** Of two files of a level that share a user key, the one with the older entry continues the other. */
  lemma SharedKeyContinues(files: Level, h: File, g: File, x: Entry, y: Entry)
    requires AllWellFormed(files) && LevelDisjoint(files) && h in files && g in files && h != g
    requires x in h.entries && y in g.entries && x.key.user == y.key.user && Less(x.key, y.key)
    ensures Continues(h, g) && x.key.user == h.largest.user
  {
    EntryInBounds(h, x);
    EntryInBounds(g, y);
    DisjointPair(files, h, g);
  }

  /** All entries of a continuing file are after those of the file it continues. */
  lemma ContinuingIsOlder(f: File, g: File, x: Entry, y: Entry)
    requires WellFormed(f) && WellFormed(g) && Continues(f, g) && x in f.entries && y in g.entries
    ensures Less(x.key, y.key)
  {
    EntryInBounds(f, x);
    EntryInBounds(g, y);
  }

  /** BoundaryOK is exactly what makes left-behind files newer than the inputs: a check of file bounds
      decides a fact about all their entries. */
  lemma BoundaryExact(v: Version, c: Compaction)
    requires VersionOK(v) && PickOK(v, c)
    ensures BoundaryOK(v, c) <==>
            forall f, g :: IsInput(c, f) && LeftBehind(v, c, g) ==> Newer(g.entries, f.entries)
  {
    if BoundaryOK(v, c) {
      forall f, g | IsInput(c, f) && LeftBehind(v, c, g) ensures Newer(g.entries, f.entries) {
        LeftoversAreNewer(v, c, f, g);
      }
    } else {
      LevelFacts(v, c.level);
      LevelFacts(v, c.level + 1);
      assert exists f, g :: IsInput(c, f) && LeftBehind(v, c, g) && Continues(f, g);
      var f, g :| IsInput(c, f) && LeftBehind(v, c, g) && Continues(f, g);
      InputIsInLevel(v, c, f);
      assert WellFormed(f) && WellFormed(g);
      ContinuationIsOlder(f, g);
    }
  }

  /** With BoundaryOK the outputs are in order, whatever is dropped. */
  lemma BoundaryOrders(v: Version, c: Compaction, outputs: Level)
    requires VersionOK(v) && PickOK(v, c) && BoundaryOK(v, c) && GoodOutputs(v, c, outputs)
    ensures OutputsOrdered(v, c, outputs)
  {
    forall g, o, x, y | g in v[c.level] && g !in c.inputs0 && o in outputs && x in g.entries && y in o.entries &&
        x.key.user == y.key.user ensures Less(x.key, y.key)
    {
      var h := OutputEntry(v, c, outputs, o, y);
      LeftoversAreNewer(v, c, h, g);
    }
  }

  /** A file that continues another holds an older entry of its last key. */
  lemma ContinuationIsOlder(f: File, g: File)
    requires WellFormed(f) && WellFormed(g) && Continues(f, g)
    ensures !Newer(g.entries, f.entries)
  {
    var x, y := f.entries[|f.entries|-1], g.entries[0];
    assert x in f.entries && y in g.entries;
    assert Less(x.key, y.key);
  }

  /** For a trivial move the hypothesis is exact: the moved-to version is layered if and only if no
      file stays behind that continues the moved one. */
  lemma MoveExact(v: Version, c: Compaction, v': Version)
    requires VersionOK(v) && PickOK(v, c) && IsTrivialMove(c) && GoodOutputs(v, c, c.inputs0)
    requires Installed(v, c, c.inputs0, v')
    ensures VersionOK(v') <==> BoundaryOK(v, c)
  {
    if BoundaryOK(v, c) {
      BoundaryOrders(v, c, c.inputs0);
      InstallKeepsVersionOK(v, c, c.inputs0, v');
    } else {
      assert c.inputs1 == [];
      var f, g :| f in c.inputs0 && g in v[c.level] && g !in c.inputs0 && Continues(f, g);
      LevelFacts(v, c.level);
      ContinuationIsOlder(f, g);
      assert AfterInstall(v, c, c.inputs0, c.level, g) && AfterInstall(v, c, c.inputs0, c.level + 1, f);
      assert g in v'[c.level] && f in v'[c.level+1];
      assert !LevelNewer(v'[c.level], v'[c.level+1]);
    }
  }
}
