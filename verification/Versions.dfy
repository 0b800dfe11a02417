/** Table files, levels and the file searches of a version (leveldb/db/version_set.cc). */
module Versions {
  import opened Options
  import opened Runs
  import opened Slices

  const NUM_LEVELS := 7
  const MAX_MEM_COMPACT_LEVEL := 2
  const TARGET_FILE_SIZE := 2 * 1048576
  const MAX_GRANDPARENT_OVERLAP_BYTES := 10 * TARGET_FILE_SIZE
  const EXPANDED_COMPACTION_BYTE_SIZE_LIMIT := 25 * TARGET_FILE_SIZE

  /** FileMetaData together with the (immutable) contents of the table it names. */
  datatype File = File(number: nat, size: nat, smallest: InternalKey, largest: InternalKey, entries: Run)

  type Level = seq<File>
  type Version = seq<Level>

  ghost predicate WellFormed(f: File) {
    && f.entries != [] && Sorted(f.entries)
    && f.smallest == f.entries[0].key && f.largest == f.entries[|f.entries|-1].key
    && forall e :: e in f.entries ==> e.key.sequence <= MAX_SEQUENCE
  }

  lemma EntryInBounds(f: File, e: Entry)
    requires WellFormed(f) && e in f.entries
    ensures !Less(e.key, f.smallest) && !Less(f.largest, e.key)
    ensures f.smallest.user <= e.key.user <= f.largest.user
  {
    var i :| 0 <= i < |f.entries| && f.entries[i] == e;
    if i > 0 { assert Less(f.entries[0].key, f.entries[i].key); }
    if i < |f.entries| - 1 { assert Less(f.entries[i].key, f.entries[|f.entries|-1].key); }
  }

  /** Builder::BySmallestKey. */
  predicate BySmallest(f: File, g: File) {
    Less(f.smallest, g.smallest) || (f.smallest == g.smallest && f.number < g.number)
  }

  ghost predicate LevelSorted(files: Level) {
    forall i, j :: 0 <= i < j < |files| ==> BySmallest(files[i], files[j])
  }

  /** Levels >= 1: sorted, and no two files overlap in internal keys. */
  ghost predicate LevelDisjoint(files: Level) {
    forall i, j :: 0 <= i < j < |files| ==> Less(files[i].largest, files[j].smallest)
  }

  ghost predicate AllWellFormed(files: Level) {
    forall f :: f in files ==> WellFormed(f)
  }

  /** For one user key, every entry of `a` is newer than (sorts before) every entry of `b`. */
  ghost predicate Newer(a: Run, b: Run) {
    forall x, y :: x in a && y in b && x.key.user == y.key.user ==> Less(x.key, y.key)
  }

  ghost predicate LevelNewer(a: Level, b: Level) {
    forall f, g :: f in a && g in b ==> Newer(f.entries, g.entries)
  }

  /** Overlapping level-0 files: a higher file number means newer. */
  ghost predicate NewerByNumber(files: Level) {
    forall f, g :: f in files && g in files && f.number > g.number ==> Newer(f.entries, g.entries)
  }

  ghost predicate DistinctNumbers(files: Level) {
    forall f, g :: f in files && g in files && f != g ==> f.number != g.number
  }

  /** No file number is used in two levels. */
  ghost predicate NoSharedNumber(a: Level, b: Level) {
    forall f, g :: f in a && g in b ==> f.number != g.number
  }

  /** What every installed version keeps. */
  ghost predicate VersionOK(v: Version) {
    && LevelsOK(v)
    && (forall l, m :: 0 <= l < m < NUM_LEVELS ==> LevelNewer(v[l], v[m]) && NoSharedNumber(v[l], v[m]))
  }

  /** The part of VersionOK that concerns each level by itself. */
  ghost predicate LevelsOK(v: Version) {
    && |v| == NUM_LEVELS
    && (forall l :: 0 <= l < NUM_LEVELS ==> AllWellFormed(v[l]) && LevelSorted(v[l]) && DistinctNumbers(v[l]))
    && (forall l :: 1 <= l < NUM_LEVELS ==> LevelDisjoint(v[l]))
    && NewerByNumber(v[0])
  }

  lemma LevelFacts(v: Version, l: nat)
    requires VersionOK(v) && l < NUM_LEVELS
    ensures AllWellFormed(v[l]) && LevelSorted(v[l]) && DistinctNumbers(v[l])
    ensures l > 0 ==> LevelDisjoint(v[l])
  {
  }

  // ---------------------------------------------------------------- searching by file bounds

  method FindFile(files: Level, key: InternalKey) returns (right: nat)
    requires LevelDisjoint(files) && AllWellFormed(files)
    ensures right <= |files|
    ensures forall i :: 0 <= i < right ==> Less(files[i].largest, key)
    ensures forall i :: right <= i < |files| ==> !Less(files[i].largest, key)
  {
    var left := 0;
    right := |files|;
    while left < right
      invariant 0 <= left <= right <= |files|
      invariant forall i :: 0 <= i < left ==> Less(files[i].largest, key)
      invariant forall i :: right <= i < |files| ==> !Less(files[i].largest, key)
    {
      var mid := (left + right) / 2;
      LargestIncreasing(files, mid);
      if Less(files[mid].largest, key) {
        left := mid + 1;
      } else {
        right := mid;
      }
    }
  }

  lemma LargestIncreasing(files: Level, mid: nat)
    requires LevelDisjoint(files) && AllWellFormed(files) && mid < |files|
    ensures forall i :: 0 <= i < mid ==> Less(files[i].largest, files[mid].largest)
    ensures forall i :: mid < i < |files| ==> Less(files[mid].largest, files[i].largest)
  {
    forall i, j | 0 <= i < j < |files| ensures Less(files[i].largest, files[j].largest) {
      var f := files[j];
      assert WellFormed(f);
      EntryInBounds(f, f.entries[0]);
    }
  }

  predicate AfterFile(user: Option<UserKey>, f: File) {
    user.Some? && user.value > f.largest.user
  }

  predicate BeforeFile(user: Option<UserKey>, f: File) {
    user.Some? && user.value < f.smallest.user
  }

  /** `f` meets the user-key range; a missing bound is unbounded. */
  predicate Overlaps(f: File, begin: Option<UserKey>, end: Option<UserKey>) {
    !AfterFile(begin, f) && !BeforeFile(end, f)
  }

  ghost predicate InRange(user: UserKey, low: UserKey, high: UserKey) { low <= user <= high }

  /** That is, some user key is in both ranges. */
  lemma OverlapsMeans(f: File, begin: UserKey, end: UserKey)
    requires f.smallest.user <= f.largest.user && begin <= end
    ensures Overlaps(f, Some(begin), Some(end)) <==>
            exists user :: InRange(user, f.smallest.user, f.largest.user) && InRange(user, begin, end)
    ensures Overlaps(f, None, Some(end)) <==> f.smallest.user <= end
    ensures Overlaps(f, Some(begin), None) <==> begin <= f.largest.user
    ensures Overlaps(f, None, None)
  {
    if Overlaps(f, Some(begin), Some(end)) {
      var user := if begin < f.smallest.user then f.smallest.user else begin;
      assert InRange(user, f.smallest.user, f.largest.user) && InRange(user, begin, end);
    }
  }

  method SomeFileOverlapsRange(disjointSortedFiles: bool, files: Level,
                               begin: Option<UserKey>, end: Option<UserKey>) returns (r: bool)
    requires AllWellFormed(files)
    requires disjointSortedFiles ==> LevelDisjoint(files)
    ensures r <==> exists f :: f in files && Overlaps(f, begin, end)
  {
    if !disjointSortedFiles {
      for i := 0 to |files|
        invariant forall j :: 0 <= j < i ==> !Overlaps(files[j], begin, end)
      {
        if AfterFile(begin, files[i]) || BeforeFile(end, files[i]) {
          // No overlap
        } else {
          assert files[i] in files;
          return true;
        }
      }
      return false;
    }
    var index := 0;
    if begin.Some? {
      index := FindFile(files, InternalKey(begin.value, MAX_SEQUENCE, Value));
    }
    forall i | 0 <= i < |files| ensures i < index <==> AfterFile(begin, files[i]) {
      assert WellFormed(files[i]) && files[i].entries[|files[i].entries|-1] in files[i].entries;
    }
    if index >= |files| {
      return false;
    }
    r := !BeforeFile(end, files[index]);
    if r {
      assert files[index] in files;
    } else {
      forall i | index <= i < |files| ensures BeforeFile(end, files[i]) {
        if i > index {
          assert Less(files[index].largest, files[i].smallest);
          assert files[index] in files;
          EntryInBounds(files[index], files[index].entries[0]);
        }
      }
    }
  }

  // ---------------------------------------------------------------- overlapping inputs

  /** The files of a level that meet a user-key range, in order. */
  function Overlapping(files: Level, begin: Option<UserKey>, end: Option<UserKey>): (r: Level)
    ensures forall f :: f in r <==> f in files && Overlaps(f, begin, end)
  {
    if files == [] then []
    else
      var n := |files| - 1;
      assert files == files[..n] + [files[n]];
      Overlapping(files[..n], begin, end) + (if Overlaps(files[n], begin, end) then [files[n]] else [])
  }

  lemma OverlappingKeepsOrder(files: Level, begin: Option<UserKey>, end: Option<UserKey>)
    ensures LevelSorted(files) ==> LevelSorted(Overlapping(files, begin, end))
    ensures LevelDisjoint(files) ==> LevelDisjoint(Overlapping(files, begin, end))
  {
    if LevelSorted(files) { OverlappingSorted(files, begin, end); }
    if LevelDisjoint(files) { OverlappingDisjoint(files, begin, end); }
  }

  lemma {:induction false} OverlappingSorted(files: Level, begin: Option<UserKey>, end: Option<UserKey>)
    requires LevelSorted(files)
    ensures LevelSorted(Overlapping(files, begin, end))
  {
    hide BySmallest, Overlaps;
    if files != [] {
      var n := |files| - 1;
      var r := Overlapping(files[..n], begin, end);
      OverlappingSorted(files[..n], begin, end);
      forall i | 0 <= i < |r| ensures BySmallest(r[i], files[n]) {
        assert r[i] in r && r[i] in files[..n];
      }
    }
  }

  lemma {:induction false} OverlappingDisjoint(files: Level, begin: Option<UserKey>, end: Option<UserKey>)
    requires LevelDisjoint(files)
    ensures LevelDisjoint(Overlapping(files, begin, end))
  {
    hide Less, Overlaps;
    if files != [] {
      var n := |files| - 1;
      var r := Overlapping(files[..n], begin, end);
      OverlappingDisjoint(files[..n], begin, end);
      forall i | 0 <= i < |r| ensures Less(r[i].largest, files[n].smallest) {
        assert r[i] in r && r[i] in files[..n];
      }
    }
  }

  /** `f` lies inside the user-key range. */
  predicate Within(f: File, begin: Option<UserKey>, end: Option<UserKey>) {
    && (begin.Some? ==> begin.value <= f.smallest.user)
    && (end.Some? ==> f.largest.user <= end.value)
  }

  /** Every file that meets the range lies inside it. */
  ghost predicate ClosedRange(files: Level, begin: Option<UserKey>, end: Option<UserKey>) {
    forall f :: f in files && Overlaps(f, begin, end) ==> Within(f, begin, end)
  }

  /** The range [b, e] covers the range [begin, end]. */
  predicate Covers(b: Option<UserKey>, e: Option<UserKey>, begin: Option<UserKey>, end: Option<UserKey>) {
    && (b.Some? ==> begin.Some? && b.value <= begin.value)
    && (e.Some? ==> end.Some? && end.value <= e.value)
  }

  /** Number of files that start before `begin`: what restarting the search leaves to widen. */
  function StartsBefore(files: Level, begin: Option<UserKey>): nat {
    if files == [] || begin.None? then 0
    else StartsBefore(files[1..], begin) + (if files[0].smallest.user < begin.value then 1 else 0)
  }

  function EndsAfter(files: Level, end: Option<UserKey>): nat {
    if files == [] || end.None? then 0
    else EndsAfter(files[1..], end) + (if files[0].largest.user > end.value then 1 else 0)
  }

  lemma {:induction false} WidenBegin(files: Level, begin: UserKey, f: File)
    requires f.smallest.user < begin
    ensures StartsBefore(files, Some(f.smallest.user)) <= StartsBefore(files, Some(begin))
    ensures f in files ==> StartsBefore(files, Some(f.smallest.user)) < StartsBefore(files, Some(begin))
  {
    if files != [] { WidenBegin(files[1..], begin, f); }
  }

  lemma {:induction false} WidenEnd(files: Level, end: UserKey, f: File)
    requires f.largest.user > end
    ensures EndsAfter(files, Some(f.largest.user)) <= EndsAfter(files, Some(end))
    ensures f in files ==> EndsAfter(files, Some(f.largest.user)) < EndsAfter(files, Some(end))
  {
    if files != [] { WidenEnd(files[1..], end, f); }
  }

  /** [b, e] is the least closed range around [begin, end], except perhaps not yet closed. */
  ghost predicate LeastCover(files: Level, begin: Option<UserKey>, end: Option<UserKey>,
                             b: Option<UserKey>, e: Option<UserKey>) {
    && Covers(b, e, begin, end)
    && forall b', e' :: Covers(b', e', begin, end) && ClosedRange(files, b', e') ==> Covers(b', e', b, e)
  }

  /** Widening the range to a file that meets it keeps it below every closed range. */
  lemma WidenKeepsLeast(files: Level, begin: Option<UserKey>, end: Option<UserKey>,
                        b: Option<UserKey>, e: Option<UserKey>, f: File)
    requires LeastCover(files, begin, end, b, e) && f in files && Overlaps(f, b, e)
    ensures b.Some? && f.smallest.user < b.value ==> LeastCover(files, begin, end, Some(f.smallest.user), e)
    ensures e.Some? && f.largest.user > e.value ==> LeastCover(files, begin, end, b, Some(f.largest.user))
  {
    forall b', e' | Covers(b', e', begin, end) && ClosedRange(files, b', e')
      ensures Covers(b', e', b, e) && Within(f, b', e')
    {
    }
  }

  ghost predicate AllForward(files: Level) {
    forall f :: f in files ==> f.smallest.user <= f.largest.user
  }

  /** `chosen` has every file that meets the range, and every file that meets the hull of `chosen`. */
  ghost predicate ClosedSelection(files: Level, begin: Option<UserKey>, end: Option<UserKey>, chosen: Level) {
    && (forall f :: f in files && Overlaps(f, begin, end) ==> f in chosen)
    && (forall f, g, h :: f in files && g in chosen && h in chosen && MeetsFrom(f, g, h) ==> f in chosen)
  }

  /** `f` meets the range from the start of g to the end of h. */
  predicate MeetsFrom(f: File, g: File, h: File) {
    g.smallest.user <= f.largest.user && f.smallest.user <= h.largest.user
  }

  ghost predicate LeastSelection(files: Level, begin: Option<UserKey>, end: Option<UserKey>, inputs: Level) {
    && ClosedSelection(files, begin, end, inputs)
    && forall chosen :: ClosedSelection(files, begin, end, chosen) ==> forall f :: f in inputs ==> f in chosen
  }

  /** The least closed range around the requested one selects the least closed set of files. */
  lemma LeastRangeSelects(files: Level, begin: Option<UserKey>, end: Option<UserKey>,
                          b: Option<UserKey>, e: Option<UserKey>)
    requires AllForward(files) && ClosedRange(files, b, e) && LeastCover(files, begin, end, b, e)
    ensures LeastSelection(files, begin, end, Overlapping(files, b, e))
  {
    SelectsClosed(files, begin, end, b, e);
    hide ClosedSelection, ClosedRange, LeastCover, AllForward, Overlapping;
    forall chosen | ClosedSelection(files, begin, end, chosen)
      ensures forall f :: f in Overlapping(files, b, e) ==> f in chosen
    {
      InEverySelection(files, begin, end, b, e, chosen);
    }
  }

  lemma SelectsClosed(files: Level, begin: Option<UserKey>, end: Option<UserKey>, b: Option<UserKey>, e: Option<UserKey>)
    requires ClosedRange(files, b, e) && LeastCover(files, begin, end, b, e)
    ensures ClosedSelection(files, begin, end, Overlapping(files, b, e))
  {
  }

  lemma InEverySelection(files: Level, begin: Option<UserKey>, end: Option<UserKey>,
                         b: Option<UserKey>, e: Option<UserKey>, chosen: Level)
    requires AllForward(files) && LeastCover(files, begin, end, b, e) && ClosedSelection(files, begin, end, chosen)
    ensures forall f :: f in Overlapping(files, b, e) ==> f in chosen
  {
    hide ClosedSelection, ClosedRange, Overlaps, AllForward;
    var b', e' := SelectedRange(files, begin, end, chosen);
    assert Covers(b', e', b, e) by { assert LeastCover(files, begin, end, b, e); }
    forall f | f in files && Overlaps(f, b, e) ensures f in chosen {
      WiderMeets(f, b, e, b', e');
    }
  }

  lemma WiderMeets(f: File, b: Option<UserKey>, e: Option<UserKey>, b': Option<UserKey>, e': Option<UserKey>)
    requires Overlaps(f, b, e) && Covers(b', e', b, e)
    ensures Overlaps(f, b', e')
  {
  }

  /** The hull of the requested range and a closed selection, if any file meets the request. */
  lemma SelectedRange(files: Level, begin: Option<UserKey>, end: Option<UserKey>, chosen: Level)
      returns (b: Option<UserKey>, e: Option<UserKey>)
    requires AllForward(files) && ClosedSelection(files, begin, end, chosen)
    ensures Covers(b, e, begin, end) && ClosedRange(files, b, e)
    ensures forall f :: f in files && Overlaps(f, b, e) ==> f in chosen
  {
    if h :| h in files && Overlaps(h, begin, end) {
      b := if begin.Some? then Some(Lowest(chosen, begin.value)) else None;
      e := if end.Some? then Some(Highest(chosen, end.value)) else None;
      forall f | f in files && Overlaps(f, b, e) ensures f in chosen && Within(f, b, e) {
        MeetsHull(files, begin, end, chosen, h, f);
      }
    } else {
      b, e := begin, end;
    }
  }

  /** A file that meets the hull of the requested range and a closed selection is selected. */
  lemma MeetsHull(files: Level, begin: Option<UserKey>, end: Option<UserKey>, chosen: Level, h: File, f: File)
    requires AllForward(files) && ClosedSelection(files, begin, end, chosen)
    requires h in files && Overlaps(h, begin, end) && f in files
    requires begin.Some? ==> Lowest(chosen, begin.value) <= f.largest.user
    requires end.Some? ==> f.smallest.user <= Highest(chosen, end.value)
    ensures f in chosen
  {
    assert h in chosen;
    if begin.Some? && f.largest.user < begin.value {
      var g :| g in chosen && g.smallest.user == Lowest(chosen, begin.value);
      assert MeetsFrom(f, g, h);
    } else if end.Some? && f.smallest.user > end.value {
      var g :| g in chosen && g.largest.user == Highest(chosen, end.value);
      assert MeetsFrom(f, h, g);
    }
  }

  function Lowest(files: Level, begin: UserKey): (r: UserKey)
    ensures r <= begin && forall f :: f in files ==> r <= f.smallest.user
    ensures r == begin || exists f :: f in files && r == f.smallest.user
  {
    if files == [] then begin
    else
      var r := Lowest(files[1..], begin);
      if files[0].smallest.user < r then files[0].smallest.user else r
  }

  function Highest(files: Level, end: UserKey): (r: UserKey)
    ensures r >= end && forall f :: f in files ==> r >= f.largest.user
    ensures r == end || exists f :: f in files && r == f.largest.user
  {
    if files == [] then end
    else
      var r := Highest(files[1..], end);
      if files[0].largest.user > r then files[0].largest.user else r
  }

  /** GetOverlappingInputs. In level 0 the search restarts whenever a file widens the range. */
  method GetOverlappingInputs(level: nat, files: Level, begin: Option<UserKey>, end: Option<UserKey>)
      returns (inputs: Level, ghost b: Option<UserKey>, ghost e: Option<UserKey>)
    ensures inputs == Overlapping(files, b, e)
    ensures level > 0 ==> b == begin && e == end
    // level 0: the range searched in the end is the least closed range around the requested one
    ensures level == 0 ==> ClosedRange(files, b, e) && LeastCover(files, begin, end, b, e)
    // so the files are the least set that has every file meeting the requested range and every file
    // meeting the hull of the set
    ensures level > 0 ==> inputs == Overlapping(files, begin, end)
    ensures level == 0 && AllForward(files) ==> LeastSelection(files, begin, end, inputs)
  {
    hide LeastCover, LeastSelection, AllForward;
    inputs := [];
    var userBegin, userEnd := begin, end;
    var i := 0;
    assert LeastCover(files, begin, end, begin, end) by { NothingWidened(files, begin, end); }
    while i < |files|
      invariant 0 <= i <= |files|
      invariant inputs == Overlapping(files[..i], userBegin, userEnd)
      invariant level > 0 ==> userBegin == begin && userEnd == end
      invariant level == 0 ==> ClosedRange(files[..i], userBegin, userEnd)
      invariant LeastCover(files, begin, end, userBegin, userEnd)
      decreases StartsBefore(files, userBegin) + EndsAfter(files, userEnd), |files| - i
    {
      var f := files[i];
      i := i + 1;
      assert files[..i] == files[..i-1] + [f] && files[..i][..i-1] == files[..i-1];
      if userBegin.Some? && f.largest.user < userBegin.value {
        // f is completely before the range
      } else if userEnd.Some? && f.smallest.user > userEnd.value {
        // f is completely after the range
      } else {
        inputs := inputs + [f];
        if level == 0 {
          WidenKeepsLeast(files, begin, end, userBegin, userEnd, f);
          // A file that sticks out of the range widens it: restart the search
          if userBegin.Some? && f.smallest.user < userBegin.value {
            WidenBegin(files, userBegin.value, f);
            userBegin := Some(f.smallest.user);
            inputs := [];
            i := 0;
          } else if userEnd.Some? && f.largest.user > userEnd.value {
            WidenEnd(files, userEnd.value, f);
            userEnd := Some(f.largest.user);
            inputs := [];
            i := 0;
          }
        }
      }
    }
    assert files[..i] == files;
    b, e := userBegin, userEnd;
    RangeSelects(level, files, begin, end, b, e);
  }

  lemma RangeSelects(level: nat, files: Level, begin: Option<UserKey>, end: Option<UserKey>,
                     b: Option<UserKey>, e: Option<UserKey>)
    requires level == 0 ==> ClosedRange(files, b, e) && LeastCover(files, begin, end, b, e)
    ensures level == 0 && AllForward(files) ==> LeastSelection(files, begin, end, Overlapping(files, b, e))
  {
    if level == 0 && AllForward(files) {
      LeastRangeSelects(files, begin, end, b, e);
    }
  }

  lemma NothingWidened(files: Level, begin: Option<UserKey>, end: Option<UserKey>)
    ensures LeastCover(files, begin, end, begin, end)
  {
  }

  // ---------------------------------------------------------------- point lookups

  ghost predicate InFiles(files: Level, e: Entry) {
    exists f :: f in files && e in f.entries
  }

  ghost predicate InVersion(v: Version, e: Entry) {
    exists l :: 0 <= l < |v| && InFiles(v[l], e)
  }

  /** No entry of the user key is visible at `s` in these files. */
  ghost predicate NoneVisible(files: Level, user: UserKey, s: nat) {
    forall f, e :: f in files && e in f.entries && e.key.user == user ==> e.key.sequence > s
  }

  /** `e` is the newest visible entry for `user` among these files. */
  ghost predicate NewestIn(files: Level, user: UserKey, s: nat, e: Entry) {
    && InFiles(files, e) && e.key.user == user && e.key.sequence <= s
    && forall f, x :: f in files && x in f.entries && x.key.user == user && x.key.sequence <= s ==>
         x.key.sequence <= e.key.sequence
  }

  /** Insert into a list kept in decreasing file number. */
  function InsertNewest(f: File, files: Level): (r: Level)
    ensures forall g :: g in r <==> g == f || g in files
    ensures NewestFirst(files) ==> NewestFirst(r)
  {
    if files == [] || f.number >= files[0].number then [f] + files
    else
      assert files == [files[0]] + files[1..];
      var rest := InsertNewest(f, files[1..]);
      assert NewestFirst(files) ==> forall g :: g in rest ==> g.number <= files[0].number;
      assert NewestFirst(files) ==> forall k :: 0 <= k < |rest| ==> rest[k].number <= files[0].number;
      [files[0]] + rest
  }

  ghost predicate NewestFirst(files: Level) {
    forall i, j :: 0 <= i < j < |files| ==> files[i].number >= files[j].number
  }

  /** std::sort with NewestFirst. */
  function SortNewestFirst(files: Level): (r: Level)
    ensures forall g :: g in r <==> g in files
    ensures NewestFirst(r)
  {
    if files == [] then []
    else
      assert files == [files[0]] + files[1..];
      InsertNewest(files[0], SortNewestFirst(files[1..]))
  }

  /** The first file, newest first, that answers holds the newest visible entry. */
  lemma FirstAnswerIsNewest(files: Level, tmp: Level, i: nat, user: UserKey, s: nat, x: Entry)
    requires NewerByNumber(files) && DistinctNumbers(files)
    requires NewestFirst(tmp) && i < |tmp| && forall f :: f in tmp ==> f in files
    requires forall f, y :: f in files && y in f.entries && y.key.user == user ==> f in tmp
    requires NoneVisible(tmp[..i], user, s) && IsNewest(tmp[i].entries, user, s, x)
    ensures NewestIn(files, user, s, x)
  {
    assert tmp[i] in tmp;
    forall f, y | f in files && y in f.entries && y.key.user == user && y.key.sequence <= s
      ensures y.key.sequence <= x.key.sequence
    {
      var j :| 0 <= j < |tmp| && tmp[j] == f;
      assert j >= i;
      if j > i && f != tmp[i] {
        assert Newer(tmp[i].entries, f.entries);
      }
    }
  }

  /** Version::Get on level 0: the files whose range contains the key, newest first. */
  method GetFromLevel0(files: Level, user: UserKey, s: nat) returns (r: Lookup, ghost e: Option<Entry>)
    requires AllWellFormed(files) && NewerByNumber(files) && DistinctNumbers(files)
    ensures r == NotFound ==> NoneVisible(files, user, s)
    ensures r != NotFound ==> e.Some? && NewestIn(files, user, s, e.value) && r == Answer(e.value)
  {
    hide NewerByNumber, NewestIn, DistinctNumbers, NewestFirst;
    e := None;
    var tmp: Level := [];
    for i := 0 to |files|
      invariant forall f :: f in tmp <==> f in files[..i] && f.smallest.user <= user <= f.largest.user
    {
      if files[i].smallest.user <= user <= files[i].largest.user {
        tmp := tmp + [files[i]];
      }
    }
    tmp := SortNewestFirst(tmp);
    forall f, x | f in files && x in f.entries && x.key.user == user ensures f in tmp {
      EntryInBounds(f, x);
    }
    for i := 0 to |tmp|
      invariant NoneVisible(tmp[..i], user, s)
    {
      assert tmp[i] in tmp && WellFormed(tmp[i]);
      r := RunGet(tmp[i].entries, user, s);
      RunGetFindsNewest(tmp[i].entries, user, s);
      if r != NotFound {
        ghost var x := tmp[i].entries[LowerBound(tmp[i].entries, SeekKey(user, s))];
        e := Some(x);
        FirstAnswerIsNewest(files, tmp, i, user, s, x);
        return;
      }
      assert tmp[..i+1] == tmp[..i] + [tmp[i]];
    }
    assert tmp[..|tmp|] == tmp;
    r := NotFound;
  }

  /** The run has a visible entry of the user key at least as new as sequence number `n`. */
  ghost predicate HasAsNewAs(run: Run, user: UserKey, s: nat, n: nat) {
    exists y :: y in run && y.key.user == user && n <= y.key.sequence <= s
  }

  /** Whatever the level has for the key is in the file FindFile gives, or older than what is there. */
  lemma OnlyFile(files: Level, index: nat, user: UserKey, s: nat, i: nat, x: Entry)
    requires AllWellFormed(files) && LevelDisjoint(files)
    requires forall j :: 0 <= j < |files| ==> (j < index <==> Less(files[j].largest, SeekKey(user, s)))
    requires i < |files| && x in files[i].entries && x.key.user == user && x.key.sequence <= s
    ensures index < |files| && files[index].smallest.user <= user
    ensures HasAsNewAs(files[index].entries, user, s, x.key.sequence)
  {
    assert files[i] in files;
    EntryInBounds(files[i], x);
    assert !Less(x.key, SeekKey(user, s));
    assert index <= i;
    var g := files[index];
    assert g in files && WellFormed(g);
    EntryInBounds(g, g.entries[0]);
    if index < i {
      assert Less(g.largest, files[i].smallest);
      var y := g.entries[|g.entries|-1];
      assert y in g.entries;
      assert Less(y.key, x.key);
      assert !Less(y.key, SeekKey(user, s));
    }
  }

  /** Version::Get on a level >= 1: at most one file can hold the answer. */
  method GetFromSortedLevel(files: Level, user: UserKey, s: nat) returns (r: Lookup, ghost e: Option<Entry>)
    requires AllWellFormed(files) && LevelDisjoint(files)
    ensures r == NotFound ==> NoneVisible(files, user, s)
    ensures r != NotFound ==> e.Some? && NewestIn(files, user, s, e.value) && r == Answer(e.value)
  {
    hide LevelDisjoint, Sorted, HasAsNewAs;
    e := None;
    var index := FindFile(files, SeekKey(user, s));
    forall f, x | f in files && x in f.entries && x.key.user == user && x.key.sequence <= s
      ensures index < |files| && files[index].smallest.user <= user
      ensures HasAsNewAs(files[index].entries, user, s, x.key.sequence)
    {
      var i :| 0 <= i < |files| && files[i] == f;
      OnlyFile(files, index, user, s, i, x);
    }
    if index >= |files| || user < files[index].smallest.user {
      return NotFound, None;
    }
    r, e := GetFromFile(files, files[index], user, s);
  }

  lemma NewestDominates(run: Run, user: UserKey, s: nat, n: nat)
    requires Sorted(run) && HasAsNewAs(run, user, s, n)
    ensures RunGet(run, user, s) != NotFound
    ensures n <= run[LowerBound(run, SeekKey(user, s))].key.sequence
  {
    RunGetFindsNewest(run, user, s);
  }

  /** A file that dominates its level for the key answers for the level. */
  method GetFromFile(files: Level, g: File, user: UserKey, s: nat) returns (r: Lookup, ghost e: Option<Entry>)
    requires g in files && WellFormed(g)
    requires forall f, x :: f in files && x in f.entries && x.key.user == user && x.key.sequence <= s ==>
               HasAsNewAs(g.entries, user, s, x.key.sequence)
    ensures r == NotFound ==> NoneVisible(files, user, s)
    ensures r != NotFound ==> e.Some? && NewestIn(files, user, s, e.value) && r == Answer(e.value)
  {
    hide HasAsNewAs;
    e := None;
    r := RunGet(g.entries, user, s);
    RunGetFindsNewest(g.entries, user, s);
    ghost var n := LowerBound(g.entries, SeekKey(user, s));
    if r != NotFound {
      e := Some(g.entries[n]);
    }
    forall f, y | f in files && y in f.entries && y.key.user == user && y.key.sequence <= s
      ensures r != NotFound && y.key.sequence <= g.entries[n].key.sequence
    {
      NewestDominates(g.entries, user, s, y.key.sequence);
    }
  }

  /** Level `level` is the first with a visible entry of the key, and `e` is its newest. */
  ghost predicate AnswersAt(v: Version, level: nat, user: UserKey, s: nat, e: Entry)
    requires level < |v|
  {
    (forall l :: 0 <= l < level ==> NoneVisible(v[l], user, s)) && NewestIn(v[level], user, s, e)
  }

  ghost predicate FirstAnswer(v: Version, user: UserKey, s: nat, e: Entry) {
    exists level :: 0 <= level < |v| && AnswersAt(v, level, user, s, e)
  }

  /** Version::Get: level by level, stopping at the first level that answers. */
  method Get(v: Version, user: UserKey, s: nat) returns (r: Lookup, ghost e: Option<Entry>)
    requires LevelsOK(v)
    ensures r == NotFound ==> forall l :: 0 <= l < NUM_LEVELS ==> NoneVisible(v[l], user, s)
    ensures r != NotFound ==> e.Some? && FirstAnswer(v, user, s, e.value) && r == Answer(e.value)
  {
    hide NoneVisible, NewestIn;
    for level := 0 to NUM_LEVELS
      invariant forall l :: 0 <= l < level ==> NoneVisible(v[l], user, s)
    {
      if |v[level]| != 0 {
        if level == 0 {
          r, e := GetFromLevel0(v[level], user, s);
        } else {
          r, e := GetFromSortedLevel(v[level], user, s);
        }
        if r != NotFound {
          assert AnswersAt(v, level, user, s, e.value);
          return;
        }
      } else {
        NoFilesNothingVisible(v[level], user, s);
      }
    }
    return NotFound, None;
  }

  lemma NoFilesNothingVisible(files: Level, user: UserKey, s: nat)
    requires files == []
    ensures NoneVisible(files, user, s)
  {
  }

  /** With shallower levels newer, the first answer is the newest entry of the version. */
  lemma FirstAnswerIsNewestOfAll(v: Version, user: UserKey, s: nat, e: Entry)
    requires VersionOK(v) && FirstAnswer(v, user, s, e)
    ensures InVersion(v, e) && e.key.user == user && e.key.sequence <= s
    ensures forall x :: InVersion(v, x) && x.key.user == user && x.key.sequence <= s ==>
              x.key.sequence <= e.key.sequence
  {
    var level :| 0 <= level < |v| && AnswersAt(v, level, user, s, e);
    assert |v| == NUM_LEVELS;
    hide VersionOK;
    forall x | InVersion(v, x) && x.key.user == user && x.key.sequence <= s
      ensures x.key.sequence <= e.key.sequence
    {
      FirstLevelIsNewest(v, level, user, s, e, x);
    }
  }

  lemma ShallowerIsNewer(v: Version, l: nat, m: nat, f: File, g: File, x: Entry, y: Entry)
    requires VersionOK(v) && l < m < NUM_LEVELS && f in v[l] && g in v[m]
    requires x in f.entries && y in g.entries && x.key.user == y.key.user
    ensures Less(x.key, y.key) && y.key.sequence <= x.key.sequence
  {
    assert LevelNewer(v[l], v[m]) && Newer(f.entries, g.entries);
  }

  lemma FirstLevelIsNewest(v: Version, level: nat, user: UserKey, s: nat, e: Entry, x: Entry)
    requires VersionOK(v) && level < NUM_LEVELS
    requires forall l :: 0 <= l < level ==> NoneVisible(v[l], user, s)
    requires NewestIn(v[level], user, s, e)
    requires InVersion(v, x) && x.key.user == user && x.key.sequence <= s
    ensures x.key.sequence <= e.key.sequence
  {
    var l :| 0 <= l < |v| && InFiles(v[l], x);
    var f :| f in v[l] && x in f.entries;
    assert |v| == NUM_LEVELS;
    hide VersionOK;
    assert l >= level;
    if l > level {
      var g :| g in v[level] && e in g.entries;
      ShallowerIsNewer(v, level, l, g, f, e, x);
    }
  }
}
