/** Choosing the inputs of a compaction (PickCompaction, CompactRange and SetupOtherInputs in
    leveldb/db/version_set.cc) and what every choice guarantees. */
module Picker {
  import opened Options
  import opened Runs
  import opened Versions
  import Builder

  /** `smallest` and `largest` are the range of inputs0; `largest` becomes the compact pointer. */
  datatype Compaction = Compaction(level: nat, inputs0: Level, inputs1: Level, grandparents: Level,
                                   smallest: InternalKey, largest: InternalKey)

  function TotalFileSize(files: Level): nat {
    if files == [] then 0 else files[0].size + TotalFileSize(files[1..])
  }

  /** The size of a file is counted once for each time it is listed. */
  lemma {:induction false} TotalFileSizeAdds(files: Level, f: File)
    ensures TotalFileSize([]) == 0
    ensures TotalFileSize(files + [f]) == TotalFileSize(files) + f.size
  {
    if files == [] {
      assert files + [f] == [f] && [f][1..] == [];
    } else {
      assert (files + [f])[1..] == files[1..] + [f];
      TotalFileSizeAdds(files[1..], f);
    }
  }

  /** The least internal-key range that covers the files. */
  ghost predicate IsRange(files: Level, smallest: InternalKey, largest: InternalKey) {
    && (forall f :: f in files ==> !Less(f.smallest, smallest) && !Less(largest, f.largest))
    && (exists f :: f in files && f.smallest == smallest)
    && (exists f :: f in files && f.largest == largest)
  }

  method GetRange(inputs: Level) returns (smallest: InternalKey, largest: InternalKey)
    requires inputs != []
    ensures IsRange(inputs, smallest, largest)
  {
    smallest, largest := inputs[0].smallest, inputs[0].largest;
    for i := 1 to |inputs|
      invariant IsRange(inputs[..i], smallest, largest)
    {
      assert inputs[..i+1] == inputs[..i] + [inputs[i]];
      if Less(inputs[i].smallest, smallest) {
        smallest := inputs[i].smallest;
      }
      if Less(largest, inputs[i].largest) {
        largest := inputs[i].largest;
      }
      assert forall f :: f in inputs[..i] ==> f in inputs[..i+1];
      assert inputs[i] in inputs[..i+1];
    }
    assert inputs[..|inputs|] == inputs;
  }

  /** What holds of every compaction that is picked. */
  ghost predicate PickOK(v: Version, c: Compaction) {
    && |v| == NUM_LEVELS && c.level + 1 < NUM_LEVELS && c.inputs0 != []
    && (forall f :: f in c.inputs0 ==> f in v[c.level])
    && LevelSorted(c.inputs0) && (c.level > 0 ==> LevelDisjoint(c.inputs0))
    && IsRange(c.inputs0, c.smallest, c.largest)
    // level 0: no file left behind meets the user-key range of the inputs
    && (c.level == 0 ==> forall f :: f in v[0] && Overlaps(f, Some(c.smallest.user), Some(c.largest.user)) ==>
          f in c.inputs0)
    // all files of the next level that meet the user-key range of inputs0
    && c.inputs1 == Overlapping(v[c.level + 1], Some(c.smallest.user), Some(c.largest.user))
  }

  /** inputs0 as the pickers hand it to SetupOtherInputs. */
  ghost predicate GoodInputs0(v: Version, level: nat, inputs0: Level) {
    && |v| == NUM_LEVELS && level + 1 < NUM_LEVELS && inputs0 != []
    && (forall f :: f in inputs0 ==> f in v[level])
    && LevelSorted(inputs0) && (level > 0 ==> LevelDisjoint(inputs0))
    && (level == 0 ==> exists b, e :: ClosedRange(v[0], b, e) && inputs0 == Overlapping(v[0], b, e))
  }

  /** A closed set of level-0 files leaves no file behind that meets its hull. */
  lemma ClosedLeavesNothing(v: Version, inputs0: Level, smallest: InternalKey, largest: InternalKey, f: File)
    requires GoodInputs0(v, 0, inputs0) && IsRange(inputs0, smallest, largest)
    requires f in v[0] && Overlaps(f, Some(smallest.user), Some(largest.user))
    ensures f in inputs0
  {
    var b, e :| ClosedRange(v[0], b, e) && inputs0 == Overlapping(v[0], b, e);
    var g :| g in inputs0 && g.smallest == smallest;
    var h :| h in inputs0 && h.largest == largest;
    assert Within(g, b, e) && Within(h, b, e);
  }

  lemma OverlapIsGood(v: Version, level: nat, begin: Option<UserKey>, end: Option<UserKey>,
                      b: Option<UserKey>, e: Option<UserKey>, inputs: Level)
    requires VersionOK(v) && level + 1 < NUM_LEVELS && inputs != []
    requires inputs == Overlapping(v[level], b, e) && (level == 0 ==> ClosedRange(v[0], b, e))
    ensures GoodInputs0(v, level, inputs)
  {
    OverlappingKeepsOrder(v[level], b, e);
  }

  /** A range that a file of the level attains meets that file. */
  lemma RangeNotEmpty(files: Level, inputs: Level, smallest: InternalKey, largest: InternalKey)
    requires AllWellFormed(inputs) && IsRange(inputs, smallest, largest)
    ensures forall f :: f in inputs ==> Overlaps(f, Some(smallest.user), Some(largest.user))
  {
    forall f | f in inputs ensures Overlaps(f, Some(smallest.user), Some(largest.user)) {
      EntryInBounds(f, f.entries[0]);
    }
  }

  /** The grandparents are the files of level+2 that overlap the compaction. */
  ghost predicate HasGrandparents(v: Version, c: Compaction) {
    && |v| == NUM_LEVELS
    && if c.level + 2 < NUM_LEVELS then
         exists start, limit :: IsRange(c.inputs0 + c.inputs1, start, limit) &&
           c.grandparents == Overlapping(v[c.level+2], Some(start.user), Some(limit.user))
       else c.grandparents == []
  }

  /** The files of the level for a user-key range, in order: those that meet it, in level 0 the least set that
      also has every file meeting its own hull. */
  ghost predicate Selects(level: nat, files: Level, begin: Option<UserKey>, end: Option<UserKey>, wide: Level) {
    && LevelSorted(wide) && (forall f :: f in wide ==> f in files)
    && if level > 0 then forall f :: f in files && Overlaps(f, begin, end) <==> f in wide
       else LeastSelection(files, begin, end, wide)
  }

  /** The wider selection may replace the picked files: it has more files, it and the files of level+1 are
      small enough together, and it needs as many files of level+1. */
  ghost predicate MayGrow(v: Version, level: nat, picked: Level, needed: Level, wide: Level)
    requires |v| == NUM_LEVELS && level + 1 < NUM_LEVELS
  {
    && |wide| > |picked| && TotalFileSize(needed) + TotalFileSize(wide) < 52428800
    && exists start: InternalKey, limit: InternalKey :: IsRange(wide, start, limit) &&
         |Overlapping(v[level+1], Some(start.user), Some(limit.user))| == |needed|
  }

  /** inputs0 grows to all files of the level that meet the hull of the picked files and of those they need
      from level+1 if and only if it may. */
  ghost predicate GrownExactly(v: Version, level: nat, picked: Level, needed: Level, inputs0: Level)
    requires |v| == NUM_LEVELS && level + 1 < NUM_LEVELS
  {
    if needed == [] then inputs0 == picked
    else
      exists start: InternalKey, limit: InternalKey, wide: Level ::
        && IsRange(picked + needed, start, limit)
        && Selects(level, v[level], Some(start.user), Some(limit.user), wide)
        && inputs0 == if MayGrow(v, level, picked, needed, wide) then wide else picked
  }

  /** What SetupOtherInputs makes of the picked files. */
  ghost predicate SetUp(v: Version, picked: Level, c: Compaction) {
    && |v| == NUM_LEVELS && c.level + 1 < NUM_LEVELS
    && exists start: InternalKey, limit: InternalKey :: IsRange(picked, start, limit) &&
         GrownExactly(v, c.level, picked, Overlapping(v[c.level+1], Some(start.user), Some(limit.user)), c.inputs0)
  }

  /** inputs1 is what inputs0 needs from the next level. */
  ghost predicate Complete(v: Version, level: nat, inputs0: Level, inputs1: Level,
                           smallest: InternalKey, largest: InternalKey) {
    && GoodInputs0(v, level, inputs0) && IsRange(inputs0, smallest, largest)
    && inputs1 == Overlapping(v[level+1], Some(smallest.user), Some(largest.user))
  }

  method SetupOtherInputs(v: Version, level: nat, picked: Level) returns (c: Compaction)
    requires VersionOK(v) && GoodInputs0(v, level, picked)
    ensures PickOK(v, c) && c.level == level
    ensures SetUp(v, picked, c) && HasGrandparents(v, c)
    ensures forall f :: f in picked ==> f in c.inputs0
  {
    assert |v| == NUM_LEVELS && level + 1 < NUM_LEVELS && picked != [];
    hide VersionOK, ClosedRange, LevelSorted, LevelDisjoint, IsRange, LeastCover, LeastSelection, AllForward, PickOK, GoodInputs0;
    hide SetUp, GrownExactly, HasGrandparents, Overlapping, TotalFileSize;
    var start, limit := GetRange(picked);
    var needed, _, _ := GetOverlappingInputs(level + 1, v[level+1], Some(start.user), Some(limit.user));
    assert Complete(v, level, picked, needed, start, limit);
    hide Complete;
    var inputs0, inputs1, smallest, largest := GrowInputs(v, level, picked, needed, start, limit);
    CompleteNotEmpty(v, level, inputs0, inputs1, smallest, largest);
    // The entire range covered by the compaction
    var allStart, allLimit := GetRange(inputs0 + inputs1);

    // The files of level+2 that overlap the compaction
    var grandparents := [];
    if level + 2 < NUM_LEVELS {
      var overlaps, _, _ := GetOverlappingInputs(level + 2, v[level+2], Some(allStart.user), Some(allLimit.user));
      grandparents := overlaps;
    }
    c := Compaction(level, inputs0, inputs1, grandparents, smallest, largest);
    GoodGivesPick(v, c);
    SetUpIs(v, picked, c, start, limit);
    GrandparentsAre(v, c, allStart, allLimit);
  }

  /** Grow inputs0 if that does not change the number of files of level+1. */
  method GrowInputs(v: Version, level: nat, picked: Level, needed: Level, start: InternalKey, limit: InternalKey)
      returns (inputs0: Level, inputs1: Level, smallest: InternalKey, largest: InternalKey)
    requires VersionOK(v) && Complete(v, level, picked, needed, start, limit)
    ensures Complete(v, level, inputs0, inputs1, smallest, largest)
    ensures forall f :: f in picked ==> f in inputs0
    ensures |v| == NUM_LEVELS && level + 1 < NUM_LEVELS && GrownExactly(v, level, picked, needed, inputs0)
  {
    hide VersionOK, ClosedRange, LevelSorted, LevelDisjoint, IsRange, LeastCover, GoodInputs0, Complete, GrownExactly;
    hide LeastSelection, AllForward, Overlapping, TotalFileSize, Selects, MayGrow, LeastSelection;
    CompleteNotEmpty(v, level, picked, needed, start, limit);
    inputs0, inputs1, smallest, largest := picked, needed, start, limit;
    NothingNeeded(v, level, picked);
    if |inputs1| != 0 {
      var allStart, allLimit := GetRange(inputs0 + inputs1);
      var expanded0, b, e := GetOverlappingInputs(level, v[level], Some(allStart.user), Some(allLimit.user));
      IsSelected(v, level, Some(allStart.user), Some(allLimit.user), b, e, expanded0);
      NotBigger(v, level, picked, needed, expanded0);
      GrownIs(v, level, picked, needed, allStart, allLimit, expanded0);
      if |expanded0| > |inputs0| &&
         TotalFileSize(inputs1) + TotalFileSize(expanded0) < EXPANDED_COMPACTION_BYTE_SIZE_LIMIT {
        OverlapIsGood(v, level, Some(allStart.user), Some(allLimit.user), b, e, expanded0);
        var newStart, newLimit := GetRange(expanded0);
        var expanded1, _, _ := GetOverlappingInputs(level + 1, v[level+1], Some(newStart.user), Some(newLimit.user));
        GrowthDecided(v, level, picked, needed, expanded0, newStart, newLimit);
        if |expanded1| == |inputs1| {
          HullKeepsPicked(v, level, picked, inputs1, allStart, allLimit, b, e);
          smallest, largest := newStart, newLimit;
          inputs0, inputs1 := expanded0, expanded1;
          IsComplete(v, level, inputs0, inputs1, smallest, largest);
        }
      }
    }
  }

  lemma CompleteNotEmpty(v: Version, level: nat, inputs0: Level, inputs1: Level, smallest: InternalKey, largest: InternalKey)
    requires Complete(v, level, inputs0, inputs1, smallest, largest)
    ensures |v| == NUM_LEVELS && level + 1 < NUM_LEVELS && inputs0 != [] && GoodInputs0(v, level, inputs0)
    ensures IsRange(inputs0, smallest, largest)
    ensures inputs1 == Overlapping(v[level+1], Some(smallest.user), Some(largest.user))
  {
  }

  lemma NothingNeeded(v: Version, level: nat, picked: Level)
    requires |v| == NUM_LEVELS && level + 1 < NUM_LEVELS
    ensures GrownExactly(v, level, picked, [], picked)
  {
  }

  lemma GrownIs(v: Version, level: nat, picked: Level, needed: Level, start: InternalKey, limit: InternalKey, wide: Level)
    requires |v| == NUM_LEVELS && level + 1 < NUM_LEVELS && needed != []
    requires IsRange(picked + needed, start, limit) && Selects(level, v[level], Some(start.user), Some(limit.user), wide)
    ensures GrownExactly(v, level, picked, needed, if MayGrow(v, level, picked, needed, wide) then wide else picked)
  {
    hide IsRange, Selects, MayGrow;
  }

  lemma IsComplete(v: Version, level: nat, inputs0: Level, inputs1: Level, smallest: InternalKey, largest: InternalKey)
    requires |v| == NUM_LEVELS && level + 1 < NUM_LEVELS && GoodInputs0(v, level, inputs0)
    requires IsRange(inputs0, smallest, largest)
    requires inputs1 == Overlapping(v[level+1], Some(smallest.user), Some(largest.user))
    ensures Complete(v, level, inputs0, inputs1, smallest, largest)
  {
  }

  lemma SetUpIs(v: Version, picked: Level, c: Compaction, start: InternalKey, limit: InternalKey)
    requires |v| == NUM_LEVELS && c.level + 1 < NUM_LEVELS && IsRange(picked, start, limit)
    requires GrownExactly(v, c.level, picked, Overlapping(v[c.level+1], Some(start.user), Some(limit.user)), c.inputs0)
    ensures SetUp(v, picked, c)
  {
  }

  /** What GetOverlappingInputs gives is selected. */
  lemma IsSelected(v: Version, level: nat, begin: Option<UserKey>, end: Option<UserKey>,
                   b: Option<UserKey>, e: Option<UserKey>, wide: Level)
    requires VersionOK(v) && level < NUM_LEVELS == |v| && wide == Overlapping(v[level], b, e)
    requires level > 0 ==> b == begin && e == end
    requires level == 0 && AllForward(v[0]) ==> LeastSelection(v[0], begin, end, wide)
    ensures Selects(level, v[level], begin, end, wide)
  {
    hide VersionOK, LeastSelection, LevelDisjoint, Overlaps;
    LevelFacts(v, level);
    OverlappingKeepsOrder(v[level], b, e);
    FilesForward(v[level]);
  }

  lemma FilesForward(files: Level)
    requires AllWellFormed(files)
    ensures AllForward(files)
  {
    forall f | f in files ensures f.smallest.user <= f.largest.user { EntryInBounds(f, f.entries[0]); }
  }

  /** The range of files is determined by them. */
  lemma RangeUnique(files: Level, a: InternalKey, b: InternalKey, a': InternalKey, b': InternalKey)
    requires IsRange(files, a, b) && IsRange(files, a', b')
    ensures a == a' && b == b'
  {
  }

  lemma NotBigger(v: Version, level: nat, picked: Level, needed: Level, wide: Level)
    requires |v| == NUM_LEVELS && level + 1 < NUM_LEVELS
    ensures !(|wide| > |picked| && TotalFileSize(needed) + TotalFileSize(wide) < EXPANDED_COMPACTION_BYTE_SIZE_LIMIT) ==>
              !MayGrow(v, level, picked, needed, wide)
  {
  }

  lemma GrowthDecided(v: Version, level: nat, picked: Level, needed: Level, wide: Level, start: InternalKey, limit: InternalKey)
    requires |v| == NUM_LEVELS && level + 1 < NUM_LEVELS && IsRange(wide, start, limit)
    requires |wide| > |picked| && TotalFileSize(needed) + TotalFileSize(wide) < EXPANDED_COMPACTION_BYTE_SIZE_LIMIT
    ensures MayGrow(v, level, picked, needed, wide) <==>
            |Overlapping(v[level+1], Some(start.user), Some(limit.user))| == |needed|
  {
    hide Overlapping, TotalFileSize;
    if MayGrow(v, level, picked, needed, wide) {
      hide IsRange;
      var s: InternalKey, l: InternalKey :| IsRange(wide, s, l) &&
        |Overlapping(v[level+1], Some(s.user), Some(l.user))| == |needed|;
      RangeUnique(wide, s, l, start, limit);
    }
  }

  lemma SelectedUnique(level: nat, files: Level, begin: Option<UserKey>, end: Option<UserKey>, a: Level, b: Level)
    requires Selects(level, files, begin, end, a) && Selects(level, files, begin, end, b)
    ensures a == b
  {
    forall f ensures f in a <==> f in b {
    }
    Builder.SortedListUnique(a, b);
  }

  /** A version and the picked files determine the whole compaction: its inputs, grandparents and range. */
  lemma SetUpDetermines(v: Version, picked: Level, c: Compaction, c': Compaction)
    requires PickOK(v, c) && SetUp(v, picked, c) && HasGrandparents(v, c)
    requires PickOK(v, c') && SetUp(v, picked, c') && HasGrandparents(v, c') && c.level == c'.level
    ensures c == c'
  {
    hide Overlapping, MayGrow, Selects, IsRange, LevelSorted, LevelDisjoint, Overlaps;
    var l := c.level;
    var s: InternalKey, t: InternalKey :| IsRange(picked, s, t) &&
      GrownExactly(v, l, picked, Overlapping(v[l+1], Some(s.user), Some(t.user)), c.inputs0);
    var s': InternalKey, t': InternalKey :| IsRange(picked, s', t') &&
      GrownExactly(v, l, picked, Overlapping(v[l+1], Some(s'.user), Some(t'.user)), c'.inputs0);
    RangeUnique(picked, s, t, s', t');
    GrownUnique(v, l, picked, Overlapping(v[l+1], Some(s.user), Some(t.user)), c.inputs0, c'.inputs0);
    RangeUnique(c.inputs0, c.smallest, c.largest, c'.smallest, c'.largest);
    if l + 2 < NUM_LEVELS {
      var a: InternalKey, b: InternalKey :| IsRange(c.inputs0 + c.inputs1, a, b) &&
        c.grandparents == Overlapping(v[l+2], Some(a.user), Some(b.user));
      var a': InternalKey, b': InternalKey :| IsRange(c.inputs0 + c.inputs1, a', b') &&
        c'.grandparents == Overlapping(v[l+2], Some(a'.user), Some(b'.user));
      RangeUnique(c.inputs0 + c.inputs1, a, b, a', b');
    }
  }

  lemma GrownUnique(v: Version, l: nat, picked: Level, needed: Level, inputs0: Level, inputs0': Level)
    requires |v| == NUM_LEVELS && l + 1 < NUM_LEVELS
    requires GrownExactly(v, l, picked, needed, inputs0) && GrownExactly(v, l, picked, needed, inputs0')
    ensures inputs0 == inputs0'
  {
    hide MayGrow, Selects, IsRange;
    if needed != [] {
      var s: InternalKey, t: InternalKey, wide :| IsRange(picked + needed, s, t) &&
        Selects(l, v[l], Some(s.user), Some(t.user), wide) &&
        inputs0 == if MayGrow(v, l, picked, needed, wide) then wide else picked;
      var s': InternalKey, t': InternalKey, wide' :| IsRange(picked + needed, s', t') &&
        Selects(l, v[l], Some(s'.user), Some(t'.user), wide') &&
        inputs0' == if MayGrow(v, l, picked, needed, wide') then wide' else picked;
      RangeUnique(picked + needed, s, t, s', t');
      SelectedUnique(l, v[l], Some(s.user), Some(t.user), wide, wide');
    }
  }

  lemma GrandparentsAre(v: Version, c: Compaction, start: InternalKey, limit: InternalKey)
    requires |v| == NUM_LEVELS && IsRange(c.inputs0 + c.inputs1, start, limit)
    requires c.grandparents == if c.level + 2 < NUM_LEVELS
                               then Overlapping(v[c.level+2], Some(start.user), Some(limit.user)) else []
    ensures HasGrandparents(v, c)
  {
  }

  /** Files that meet the hull of a compaction include the picked ones. */
  lemma HullKeepsPicked(v: Version, level: nat, picked: Level, inputs1: Level, start: InternalKey, limit: InternalKey,
                        b: Option<UserKey>, e: Option<UserKey>)
    requires VersionOK(v) && GoodInputs0(v, level, picked) && IsRange(picked + inputs1, start, limit)
    requires if level == 0 then LeastCover(v[0], Some(start.user), Some(limit.user), b, e)
             else b == Some(start.user) && e == Some(limit.user)
    ensures forall f :: f in picked ==> f in Overlapping(v[level], b, e)
  {
    forall f | f in picked ensures f in Overlapping(v[level], b, e) {
      LevelFacts(v, level);
      assert f in picked + inputs1;
      EntryInBounds(f, f.entries[0]);
    }
  }

  lemma GoodGivesPick(v: Version, c: Compaction)
    requires GoodInputs0(v, c.level, c.inputs0) && IsRange(c.inputs0, c.smallest, c.largest)
    requires c.inputs1 == Overlapping(v[c.level + 1], Some(c.smallest.user), Some(c.largest.user))
    ensures PickOK(v, c)
  {
    if c.level == 0 {
      forall f | f in v[0] && Overlaps(f, Some(c.smallest.user), Some(c.largest.user)) ensures f in c.inputs0 {
        ClosedLeavesNothing(v, c.inputs0, c.smallest, c.largest, f);
      }
    }
  }

  /** The file a size compaction starts with: the first one after the compact pointer, or the first of
      the level if there is none. */
  ghost predicate IsNextFile(files: Level, compactPointer: Option<InternalKey>, f: File) {
    || (exists i :: 0 <= i < |files| && files[i] == f && Passes(compactPointer, f) &&
          forall j :: 0 <= j < i ==> !Passes(compactPointer, files[j]))
    || (files != [] && f == files[0] && forall g :: g in files ==> !Passes(compactPointer, g))
  }

  ghost predicate Passes(compactPointer: Option<InternalKey>, f: File) {
    compactPointer == None || (Less(compactPointer.value, f.largest) && !Less(f.largest, compactPointer.value))
  }

  predicate After(compactPointer: Option<InternalKey>, f: File) {
    compactPointer.None? || Less(compactPointer.value, f.largest)
  }

  /** The compaction is set up from one file, in level 0 from the least set for its range. */
  ghost predicate PickedFrom(v: Version, f: File, c: Compaction) {
    if c.level > 0 then SetUp(v, [f], c)
    else |v| > 0 && exists p :: Selects(0, v[0], Some(f.smallest.user), Some(f.largest.user), p) && SetUp(v, p, c)
  }

  /** So the file determines it. */
  lemma PickDetermines(v: Version, f: File, c: Compaction, c': Compaction)
    requires PickOK(v, c) && PickedFrom(v, f, c) && HasGrandparents(v, c)
    requires PickOK(v, c') && PickedFrom(v, f, c') && HasGrandparents(v, c') && c.level == c'.level
    ensures c == c'
  {
    hide PickOK, SetUp, HasGrandparents, Selects;
    if c.level > 0 {
      SetUpDetermines(v, [f], c, c');
    } else {
      var p :| Selects(0, v[0], Some(f.smallest.user), Some(f.largest.user), p) && SetUp(v, p, c);
      var p' :| Selects(0, v[0], Some(f.smallest.user), Some(f.largest.user), p') && SetUp(v, p', c');
      SelectedUnique(0, v[0], Some(f.smallest.user), Some(f.largest.user), p, p');
      SetUpDetermines(v, p, c, c');
    }
  }

  /** PickCompaction for a level chosen by size. */
  method PickBySize(v: Version, level: nat, compactPointer: Option<InternalKey>)
      returns (c: Compaction, ghost first: File)
    requires VersionOK(v) && level + 1 < NUM_LEVELS && v[level] != []
    ensures PickOK(v, c) && c.level == level && HasGrandparents(v, c)
    ensures IsNextFile(v[level], compactPointer, first) && PickedFrom(v, first, c) && first in c.inputs0
  {
    var picked := v[level][0];
    var found := false;
    for i := 0 to |v[level]|
      invariant !found && picked == v[level][0] && forall j :: 0 <= j < i ==> !After(compactPointer, v[level][j])
    {
      if After(compactPointer, v[level][i]) {
        picked, found := v[level][i], true;
        break;
      }
    }
    first := picked;
    assert IsNextFile(v[level], compactPointer, picked);
    c := PickFile(v, level, picked);
  }

  /** PickCompaction once a file is chosen (by size or by seeks). */
  method PickFile(v: Version, level: nat, picked: File) returns (c: Compaction)
    requires VersionOK(v) && level + 1 < NUM_LEVELS && picked in v[level]
    ensures PickOK(v, c) && c.level == level && HasGrandparents(v, c)
    ensures picked in c.inputs0 && PickedFrom(v, picked, c)
  {
    hide SetUp, HasGrandparents, PickOK, Selects;
    var inputs0 := [picked];
    if level == 0 {
      // Level-0 files may overlap each other: take all overlapping ones
      var smallest, largest := GetRange(inputs0);
      ghost var b, e;
      inputs0, b, e := GetOverlappingInputs(0, v[0], Some(smallest.user), Some(largest.user));
      assert picked in inputs0 by {
        RangeNotEmpty(v[0], [picked], smallest, largest);
        assert picked in [picked];
      }
      OverlapIsGood(v, 0, Some(smallest.user), Some(largest.user), b, e, inputs0);
      IsSelected(v, 0, Some(smallest.user), Some(largest.user), b, e, inputs0);
      assert smallest == picked.smallest && largest == picked.largest;
    }
    c := SetupOtherInputs(v, level, inputs0);
  }
  /** How CompactRange cuts its inputs (except in level 0): after the file that makes them as large as
      one output file. */
  ghost predicate IsCut(all: Level, n: nat) {
    && 0 < n <= |all|
    && (n < |all| ==> TotalFileSize(all[..n]) >= 2097152)
    && TotalFileSize(all[..n-1]) < 2097152
  }

  lemma {:induction false} SizeOfPrefix(files: Level, n: nat)
    requires n < |files|
    ensures TotalFileSize(files[..n+1]) == TotalFileSize(files[..n]) + files[n].size
  {
    if n == 0 {
      assert files[..1] == [files[0]] && files[..0] == [];
    } else {
      SizeOfPrefix(files[1..], n - 1);
      assert files[..n+1][1..] == files[1..][..n] && files[..n][1..] == files[1..][..n-1];
    }
  }

  lemma NoFilesNoSize(files: Level)
    ensures TotalFileSize(files[..0]) == 0
  {
  }

  /** CompactRange: all files of the level in the range, cut off (except in level 0) once they are
      as large as one output file. `n` is where they are cut. */
  method CompactRange(v: Version, level: nat, begin: Option<UserKey>, end: Option<UserKey>)
      returns (c: Option<Compaction>, ghost n: nat)
    requires VersionOK(v) && level + 1 < NUM_LEVELS
    ensures c.None? <==> forall f :: f in v[level] ==> !Overlaps(f, begin, end)
    ensures c.Some? ==> PickOK(v, c.value) && c.value.level == level && HasGrandparents(v, c.value)
    ensures c.Some? && level == 0 ==> forall f :: f in v[0] && Overlaps(f, begin, end) ==> f in c.value.inputs0
    ensures c.Some? && level == 0 ==>
              exists all :: Selects(0, v[0], begin, end, all) && SetUp(v, all, c.value)
    ensures c.Some? && level > 0 ==>
              var all := Overlapping(v[level], begin, end);
              IsCut(all, n) && SetUp(v, all[..n], c.value)
  {
    assert |v| == NUM_LEVELS;
    hide VersionOK, ClosedRange, LevelSorted, LevelDisjoint, IsRange, GoodInputs0, PickOK, HasGrandparents, SetUp;
    hide LeastCover, LeastSelection, AllForward, Overlapping, TotalFileSize, IsCut, Overlaps, Selects;
    var inputs, b, e := GetOverlappingInputs(level, v[level], begin, end);
    n := |inputs|;
    NothingOverlaps(level, v[level], begin, end, b, e);
    if inputs == [] {
      return None, n;
    }
    OverlapIsGood(v, level, begin, end, b, e, inputs);
    IsSelected(v, level, begin, end, b, e, inputs);
    ghost var all := inputs;
    if level > 0 {
      var total := 0;
      NoFilesNoSize(all);
      for i := 0 to |inputs|
        invariant inputs == all && n == |all| && total == TotalFileSize(all[..i])
        invariant i > 0 ==> TotalFileSize(all[..i]) < TARGET_FILE_SIZE
      {
        total := total + inputs[i].size;
        SizeOfPrefix(all, i);
        if total >= TARGET_FILE_SIZE {
          PrefixIsGood(v, level, all, i + 1);
          inputs := inputs[..i+1];
          n := i + 1;
          break;
        }
      }
      SizeOfPrefix(all, n - 1);
      NoFilesNoSize(all);
      assert all[..n-1+1] == all[..n];
      CutFound(all, n, inputs);
    }
    var r := SetupOtherInputs(v, level, inputs);
    c := Some(r);
  }

  lemma CutFound(all: Level, n: nat, inputs: Level)
    requires 0 < n <= |all| && inputs == all[..n]
    requires n < |all| ==> TotalFileSize(inputs) >= TARGET_FILE_SIZE
    requires TotalFileSize(all[..n-1]) < TARGET_FILE_SIZE
    ensures IsCut(all, n)
  {
  }

  /** The widened search of level 0 finds something exactly if the requested range does. */
  lemma NothingOverlaps(level: nat, files: Level, begin: Option<UserKey>, end: Option<UserKey>,
                        b: Option<UserKey>, e: Option<UserKey>)
    requires if level == 0 then LeastCover(files, begin, end, b, e) else b == begin && e == end
    ensures Overlapping(files, b, e) == [] <==> forall f :: f in files ==> !Overlaps(f, begin, end)
    ensures forall f :: f in files && Overlaps(f, begin, end) ==> f in Overlapping(files, b, e)
  {
    if forall f :: f in files ==> !Overlaps(f, begin, end) {
      assert ClosedRange(files, begin, end);
      assert Covers(begin, end, b, e) && Covers(b, e, begin, end);
      assert b == begin && e == end;
      assert forall f :: f !in Overlapping(files, b, e);
    }
  }

  lemma PrefixIsGood(v: Version, level: nat, inputs: Level, n: nat)
    requires level > 0 && GoodInputs0(v, level, inputs) && 0 < n <= |inputs|
    ensures GoodInputs0(v, level, inputs[..n])
  {
    assert forall f :: f in inputs[..n] ==> f in inputs;
  }

  /** IsTrivialMove: one file that can move down as it is. */
  predicate IsTrivialMove(c: Compaction) {
    |c.inputs0| == 1 && |c.inputs1| == 0 && TotalFileSize(c.grandparents) <= MAX_GRANDPARENT_OVERLAP_BYTES
  }
}
