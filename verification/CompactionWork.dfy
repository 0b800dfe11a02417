/** The loop of DBImpl::DoCompactionWork and the cursors a compaction keeps
    (leveldb/db/db_impl.cc, leveldb/db/version_set.cc). */
module CompactionWork {
  import opened Options
  import opened Runs
  import opened Versions
  import opened Picker
  import opened Merger
  import opened Compactions

  // ---------------------------------------------------------------- where outputs are cut

  /** How far the grandparents are passed, their bytes that the current output overlaps, and whether the
      output has to end before the key that was looked at last. */
  datatype GrandState = GrandState(index: nat, bytes: nat, stop: bool)

  /** The first grandparent from `start` on that does not end before the key. */
  function PassedBy(grandparents: Level, start: nat, key: InternalKey): (r: nat)
    requires start <= |grandparents|
    ensures start <= r <= |grandparents|
    ensures forall j :: start <= j < r ==> Less(grandparents[j].largest, key)
    ensures r < |grandparents| ==> !Less(grandparents[r].largest, key)
    decreases |grandparents| - start
  {
    if start < |grandparents| && Less(grandparents[start].largest, key) then PassedBy(grandparents, start + 1, key)
    else start
  }

  /** What ShouldStopBefore has computed after the first i keys of the input: the grandparents passed from
      the second key on count, and the count starts anew with every stop. */
  function GrandAt(c: Compaction, input: Run, i: nat): (r: GrandState)
    requires i <= |input|
    ensures r.index <= |c.grandparents|
  {
    if i == 0 then GrandState(0, 0, false)
    else
      var was := GrandAt(c, input, i - 1);
      var index := PassedBy(c.grandparents, was.index, input[i-1].key);
      var bytes := was.bytes + if i == 1 then 0 else TotalFileSize(c.grandparents[was.index..index]);
      if bytes > MAX_GRANDPARENT_OVERLAP_BYTES then GrandState(index, 0, true) else GrandState(index, bytes, false)
  }

  predicate StopsBefore(c: Compaction, input: Run, i: nat)
    requires i < |input|
  {
    GrandAt(c, input, i + 1).stop
  }

  /** The size of a table while it is built and when it is finished. */
  datatype TableSizes = TableSizes(building: Run -> nat, finished: Run -> nat)

  /** The tables that are closed and the one being built. */
  datatype Cut = Cut(done: seq<Run>, open: Run)

  function Close(t: Cut): Cut {
    if t.open == [] then t else Cut(t.done + [t.open], [])
  }

  /** Add an entry; a table is closed once it is big enough. */
  function Put(sizes: TableSizes, t: Cut, e: Entry): Cut {
    var open := t.open + [e];
    if sizes.building(open) >= TARGET_FILE_SIZE then Cut(t.done + [open], []) else Cut(t.done, open)
  }

  /** The tables after the first n entries of the input: an output ends before a key that overlaps too much
      of the grandparents, and after an entry that makes it big enough. */
  ghost function CutUpTo(v: Version, c: Compaction, snapshot: nat, input: Run, sizes: TableSizes, n: nat): Cut
    requires n <= |input|
  {
    if n == 0 then Cut([], [])
    else
      var was := CutUpTo(v, c, snapshot, input, sizes, n - 1);
      var t := if StopsBefore(c, input, n - 1) then Close(was) else was;
      if Dropped(input, n - 1, snapshot, v, c.level) then t else Put(sizes, t, input[n-1])
  }

  /** The tables of a whole compaction. */
  ghost function CutStream(v: Version, c: Compaction, snapshot: nat, input: Run, sizes: TableSizes): seq<Run> {
    Close(CutUpTo(v, c, snapshot, input, sizes, |input|)).done
  }

  function TableOf(number: nat, sizes: TableSizes, run: Run): File
    requires run != []
  {
    File(number, sizes.finished(run), run[0].key, run[|run|-1].key, run)
  }

  /** The output files are the tables of the cut, with consecutive numbers. */
  ghost predicate AreTables(outputs: Level, first: nat, sizes: TableSizes, runs: seq<Run>) {
    && |outputs| == |runs|
    && forall i :: 0 <= i < |runs| ==>
         && runs[i] != []
         && outputs[i] == File(first + i, sizes.finished(runs[i]), runs[i][0].key, runs[i][|runs[i]|-1].key, runs[i])
  }

  lemma AreTablesAppend(outputs: Level, first: nat, sizes: TableSizes, runs: seq<Run>, f: File, run: Run)
    requires AreTables(outputs, first, sizes, runs) && run != []
    requires f == TableOf(first + |outputs|, sizes, run)
    ensures AreTables(outputs + [f], first, sizes, runs + [run])
  {
  }

  lemma AreTablesUnique(a: Level, b: Level, first: nat, sizes: TableSizes, runs: seq<Run>)
    requires AreTables(a, first, sizes, runs) && AreTables(b, first, sizes, runs)
    ensures a == b
  {
  }

  /** With few grandparent bytes no output ends early. */
  lemma {:induction false} FewGrandparents(c: Compaction, input: Run, i: nat)
    requires TotalFileSize(c.grandparents) <= MAX_GRANDPARENT_OVERLAP_BYTES && i <= |input|
    ensures !GrandAt(c, input, i).stop
    ensures GrandAt(c, input, i).bytes <= TotalFileSize(c.grandparents[..GrandAt(c, input, i).index])
  {
    if i > 0 {
      FewGrandparents(c, input, i - 1);
      var was := GrandAt(c, input, i - 1);
      var index := PassedBy(c.grandparents, was.index, input[i-1].key);
      SizeOfParts(c.grandparents[..index], was.index);
      SizeOfParts(c.grandparents, index);
      assert c.grandparents[..index][..was.index] == c.grandparents[..was.index];
      assert c.grandparents[..index][was.index..] == c.grandparents[was.index..index];
    }
  }

  lemma {:induction false} SizeOfParts(files: Level, n: nat)
    requires n <= |files|
    ensures TotalFileSize(files) == TotalFileSize(files[..n]) + TotalFileSize(files[n..])
  {
    if n == 0 {
      assert files[..0] == [] && files[0..] == files;
    } else {
      SizeOfParts(files[1..], n - 1);
      assert files[..n][1..] == files[1..][..n-1] && files[1..][n-1..] == files[n..];
    }
  }

  // ---------------------------------------------------------------- the cuts, on keys and file bounds alone

  /** Bytes of the files that end before `to` and did not end before `from`. */
  function PassedSize(files: Level, from: InternalKey, to: InternalKey): nat {
    if files == [] then 0
    else
      (if Less(files[0].largest, to) && !Less(files[0].largest, from) then files[0].size else 0) +
      PassedSize(files[1..], from, to)
  }

  /** A key has to start a new output exactly if the grandparents passed since the last such key, or since the
      first key if there is none, have more than twenty megabytes. */
  ghost predicate RightStops(grandparents: Level, input: Run, stops: seq<bool>) {
    && |stops| == |input| && (input != [] ==> !stops[0])
    && forall p, i :: 0 <= p < i < |input| && (p == 0 || stops[p]) && NoneBetween(stops, p, i) ==>
         (stops[i] <==> PassedSize(grandparents, input[p].key, input[i].key) > 20971520)
  }

  ghost predicate NoneBetween(stops: seq<bool>, p: int, i: int) {
    0 <= p < i <= |stops| && forall j :: p < j < i ==> !stops[j]
  }

  /** Some key after x, up to y, starts a new output. */
  ghost predicate StopBetween(input: Run, stops: seq<bool>, x: Entry, y: Entry) {
    exists i :: 0 <= i < |input| && i < |stops| && stops[i] && Less(x.key, input[i].key) && !Less(y.key, input[i].key)
  }

  /** The tables end exactly where they have to: inside a table no key starts a new output and the entries so far
      have less than two megabytes; between two tables the first is big enough or a key starts a new output. */
  ghost predicate RightCuts(input: Run, stops: seq<bool>, sizes: TableSizes, runs: seq<Run>) {
    && (forall k :: 0 <= k < |runs| ==> RightInside(input, stops, sizes, runs[k]))
    && (forall k :: 0 <= k < |runs| - 1 ==> RightEnd(input, stops, sizes, runs[k], runs[k+1]))
  }

  ghost predicate RightInside(input: Run, stops: seq<bool>, sizes: TableSizes, run: Run) {
    && run != []
    && forall n :: 0 < n < |run| ==> sizes.building(run[..n]) < 2097152 && !StopBetween(input, stops, run[n-1], run[n])
  }

  ghost predicate RightEnd(input: Run, stops: seq<bool>, sizes: TableSizes, run: Run, next: Run) {
    && run != [] && next != []
    && (sizes.building(run) >= 2097152 || StopBetween(input, stops, run[|run|-1], next[0]))
  }

  function Stops(c: Compaction, input: Run): (r: seq<bool>)
    ensures |r| == |input|
  {
    seq(|input|, i requires 0 <= i < |input| => StopsBefore(c, input, i))
  }

  /** Grandparents are passed in order. */
  lemma PassedInOrder(files: Level, start: nat, key: InternalKey)
    requires LevelDisjoint(files) && AllWellFormed(files) && start <= |files|
    requires forall j :: 0 <= j < start ==> Less(files[j].largest, key)
    ensures forall j :: 0 <= j < |files| ==> (Less(files[j].largest, key) <==> j < PassedBy(files, start, key))
  {
    var r := PassedBy(files, start, key);
    forall j | r <= j < |files| ensures !Less(files[j].largest, key) {
      if r < j {
        assert Less(files[r].largest, files[j].smallest) && files[j] in files;
        EntryInBounds(files[j], files[j].entries[0]);
      }
    }
  }

  lemma {:induction false} PassedIsBetween(files: Level, from: InternalKey, to: InternalKey, a: nat, b: nat)
    requires a <= b <= |files|
    requires forall j :: 0 <= j < |files| ==> (Less(files[j].largest, from) <==> j < a) && (Less(files[j].largest, to) <==> j < b)
    ensures PassedSize(files, from, to) == TotalFileSize(files[a..b])
  {
    if files != [] {
      var rest := files[1..];
      if a > 0 {
        PassedIsBetween(rest, from, to, a - 1, b - 1);
        assert rest[a-1..b-1] == files[a..b];
      } else if b > 0 {
        PassedIsBetween(rest, from, to, 0, b - 1);
        assert files[0..b][1..] == rest[0..b-1];
      } else {
        PassedIsBetween(rest, from, to, 0, 0);
      }
    }
  }

  /** How far the grandparents are passed after key i. */
  lemma {:induction false} IndexIs(c: Compaction, input: Run, i: nat)
    requires LevelDisjoint(c.grandparents) && AllWellFormed(c.grandparents) && Sorted(input) && i < |input|
    ensures forall j :: 0 <= j < |c.grandparents| ==>
              (Less(c.grandparents[j].largest, input[i].key) <==> j < GrandAt(c, input, i + 1).index)
  {
    hide LevelDisjoint, AllWellFormed;
    if i > 0 {
      IndexIs(c, input, i - 1);
      assert Less(input[i-1].key, input[i].key);
    }
    PassedInOrder(c.grandparents, GrandAt(c, input, i).index, input[i].key);
  }

  lemma FirstNeverStops(c: Compaction, input: Run)
    requires input != []
    ensures !StopsBefore(c, input, 0) && GrandAt(c, input, 1).bytes == 0
  {
    assert GrandAt(c, input, 0) == GrandState(0, 0, false);
  }

  lemma {:induction false} IndexGrows(c: Compaction, input: Run, p: nat, i: nat)
    requires p <= i <= |input|
    ensures GrandAt(c, input, p).index <= GrandAt(c, input, i).index
    decreases i - p
  {
    hide TotalFileSize;
    if p < i {
      IndexGrows(c, input, p, i - 1);
      assert GrandAt(c, input, i).index == PassedBy(c.grandparents, GrandAt(c, input, i - 1).index, input[i-1].key);
    }
  }

  /** Bytes of the grandparents passed by the keys from p + 1 to i. */
  function PassedBytes(c: Compaction, input: Run, p: nat, i: nat): nat
    requires p <= i < |input|
  {
    IndexGrows(c, input, p + 1, i + 1);
    TotalFileSize(c.grandparents[GrandAt(c, input, p + 1).index..GrandAt(c, input, i + 1).index])
  }

  lemma PassedMore(c: Compaction, input: Run, p: nat, i: nat)
    requires p < i < |input|
    ensures var was, now := GrandAt(c, input, i).index, GrandAt(c, input, i + 1).index;
      was <= now && PassedBytes(c, input, p, i) == PassedBytes(c, input, p, i - 1) + TotalFileSize(c.grandparents[was..now])
  {
    hide GrandAt, TotalFileSize;
    IndexGrows(c, input, p + 1, i);
    IndexGrows(c, input, i, i + 1);
    SizeOfJoin(c.grandparents, GrandAt(c, input, p + 1).index, GrandAt(c, input, i).index, GrandAt(c, input, i + 1).index);
  }

  lemma SizeOfJoin(files: Level, a: nat, b: nat, d: nat)
    requires a <= b <= d <= |files|
    ensures TotalFileSize(files[a..d]) == TotalFileSize(files[a..b]) + TotalFileSize(files[b..d])
  {
    SizeOfParts(files[a..d], b - a);
    assert files[a..d][..b-a] == files[a..b] && files[a..d][b-a..] == files[b..d];
  }

  lemma GrandStep(c: Compaction, input: Run, i: nat)
    requires 0 < i < |input|
    ensures var was, now := GrandAt(c, input, i), GrandAt(c, input, i + 1);
      && was.index <= now.index && (now.stop <==> StopsBefore(c, input, i))
      && (now.stop <==> was.bytes + TotalFileSize(c.grandparents[was.index..now.index]) > MAX_GRANDPARENT_OVERLAP_BYTES)
      && now.bytes == if now.stop then 0 else was.bytes + TotalFileSize(c.grandparents[was.index..now.index])
  {
    hide TotalFileSize;
  }

  lemma NothingPassed(c: Compaction, input: Run, p: nat)
    requires p < |input|
    ensures PassedBytes(c, input, p, p) == 0
  {
    assert c.grandparents[GrandAt(c, input, p + 1).index..GrandAt(c, input, p + 1).index] == [];
  }

  /** The bytes counted after key i are those passed since the last key that started a new output. */
  lemma {:induction false} BytesAre(c: Compaction, input: Run, p: nat, i: nat)
    requires p <= i < |input| && (p == 0 || StopsBefore(c, input, p)) && forall j :: p < j < i ==> !StopsBefore(c, input, j)
    ensures p < i ==> (StopsBefore(c, input, i) <==> PassedBytes(c, input, p, i) > MAX_GRANDPARENT_OVERLAP_BYTES)
    ensures GrandAt(c, input, i + 1).bytes == if i > p && StopsBefore(c, input, i) then 0 else PassedBytes(c, input, p, i)
    decreases i - p
  {
    hide GrandAt, TotalFileSize, StopsBefore, PassedBytes;
    if p < i {
      BytesAre(c, input, p, i - 1);
      PassedMore(c, input, p, i);
      GrandStep(c, input, i);
    } else {
      NothingPassed(c, input, p);
      if p == 0 { FirstNeverStops(c, input); } else { GrandStep(c, input, p); }
    }
  }

  lemma StopsAreRight(c: Compaction, input: Run)
    requires LevelDisjoint(c.grandparents) && AllWellFormed(c.grandparents) && Sorted(input)
    ensures RightStops(c.grandparents, input, Stops(c, input))
  {
    var stops := Stops(c, input);
    hide LevelDisjoint, AllWellFormed, StopsBefore;
    if input != [] { FirstNeverStops(c, input); }
    forall p, i | 0 <= p < i < |input| && (p == 0 || stops[p]) && NoneBetween(stops, p, i)
      ensures stops[i] <==> PassedSize(c.grandparents, input[p].key, input[i].key) > 20971520
    {
      assert forall j :: p < j < i ==> !stops[j] && stops[j] == StopsBefore(c, input, j);
      BytesAre(c, input, p, i);
      IndexIs(c, input, p);
      IndexIs(c, input, i);
      IndexGrows(c, input, p + 1, i + 1);
      PassedIsBetween(c.grandparents, input[p].key, input[i].key, GrandAt(c, input, p + 1).index, GrandAt(c, input, i + 1).index);
    }
  }

  /** Of two such lists of starting keys there is only one. */
  lemma {:induction false} RightStopsUnique(grandparents: Level, input: Run, a: seq<bool>, b: seq<bool>, n: nat)
    requires RightStops(grandparents, input, a) && RightStops(grandparents, input, b) && n <= |input|
    ensures |a| == |b| && a[..n] == b[..n]
  {
    if n > 1 {
      RightStopsUnique(grandparents, input, a, b, n - 1);
      var p := LastStart(a, n - 1);
      assert forall j :: 0 <= j < n - 1 ==> a[j] == a[..n-1][j] && b[j] == b[..n-1][j];
      assert NoneBetween(a, p, n - 1) && NoneBetween(b, p, n - 1);
    }
  }

  lemma {:induction false} LastStart(stops: seq<bool>, i: nat) returns (p: nat)
    requires 0 < i <= |stops|
    ensures p < i && (p == 0 || stops[p]) && NoneBetween(stops, p, i)
  {
    if i == 1 || stops[i-1] { p := i - 1; } else { p := LastStart(stops, i - 1); }
  }

  /** The tables of a cut, the open one last. */
  function AllTables(t: Cut): seq<Run> { t.done + if t.open == [] then [] else [t.open] }

  /** With n keys looked at: the tables so far are right, the open one is not full and no key since its last entry
      starts a new output, and if none is open a new one may begin. */
  ghost predicate CutSoFar(input: Run, stops: seq<bool>, sizes: TableSizes, n: nat, t: Cut) {
    && RightCuts(input, stops, sizes, AllTables(t))
    && (t.open != [] ==> sizes.building(t.open) < 2097152 && NoStopSince(input, stops, n, t.open[|t.open|-1]))
    && (t.open == [] && t.done != [] ==> MayBegin(input, stops, sizes, n, t.done[|t.done|-1]))
  }

  ghost predicate NoStopSince(input: Run, stops: seq<bool>, n: nat, x: Entry) {
    forall i :: 0 <= i < n && i < |input| && i < |stops| && Less(x.key, input[i].key) ==> !stops[i]
  }

  ghost predicate MayBegin(input: Run, stops: seq<bool>, sizes: TableSizes, n: nat, run: Run) {
    && run != []
    && (sizes.building(run) >= 2097152 ||
        exists i :: 0 <= i < n && i < |input| && i < |stops| && stops[i] && Less(run[|run|-1].key, input[i].key))
  }

  /** The key is looked at: the open table is closed if it has to be. */
  lemma LookIsRight(input: Run, stops: seq<bool>, sizes: TableSizes, n: nat, t: Cut)
    requires CutSoFar(input, stops, sizes, n, t) && n < |input| == |stops|
    requires forall e :: e in All(t) ==> Less(e.key, input[n].key)
    ensures CutSoFar(input, stops, sizes, n + 1, if stops[n] then Close(t) else t)
  {
    hide RightCuts;
    assert stops[n] ==> AllTables(Close(t)) == AllTables(t);
    if t.open != [] { assert t.open[|t.open|-1] in All(t); }
  }

  /** Its entry is added. */
  lemma PutIsRight(input: Run, stops: seq<bool>, sizes: TableSizes, n: nat, t: Cut)
    requires Sorted(input) && CutSoFar(input, stops, sizes, n + 1, t) && n < |input| == |stops|
    requires t.open != [] ==> Less(t.open[|t.open|-1].key, input[n].key)
    ensures CutSoFar(input, stops, sizes, n + 1, Put(sizes, t, input[n]))
  {
    var e, open := input[n], t.open + [input[n]];
    assert AllTables(Put(sizes, t, e)) == t.done + [open];
    forall i | 0 <= i <= n ensures !Less(e.key, input[i].key) { assert i < n ==> Less(input[i].key, e.key); }
    if t.open != [] {
      assert AllTables(t) == t.done + [t.open] && AllTables(t)[|t.done|] == t.open;
      GrownInside(input, stops, sizes, n, t.open);
      LastGrown(input, stops, sizes, t.done, t.open, open);
    } else {
      assert AllTables(t) == t.done && open == [e];
      assert RightInside(input, stops, sizes, open);
      if t.done != [] { MayBeginEnds(input, stops, sizes, n, t.done[|t.done|-1], open); }
      OneMoreTable(input, stops, sizes, t.done, open);
    }
  }

  lemma GrownInside(input: Run, stops: seq<bool>, sizes: TableSizes, n: nat, open: Run)
    requires Sorted(input) && n < |input| == |stops| && open != [] && RightInside(input, stops, sizes, open)
    requires sizes.building(open) < 2097152 && NoStopSince(input, stops, n + 1, open[|open|-1])
    ensures RightInside(input, stops, sizes, open + [input[n]])
  {
    var e, run := input[n], open + [input[n]];
    assert !StopBetween(input, stops, open[|open|-1], e) by {
      forall i | 0 <= i < |input| && stops[i] && Less(open[|open|-1].key, input[i].key) ensures Less(e.key, input[i].key) {
        assert i > n;
      }
    }
    hide StopBetween;
    forall m | 0 < m < |run| ensures sizes.building(run[..m]) < 2097152 && !StopBetween(input, stops, run[m-1], run[m]) {
      if m < |open| { assert run[..m] == open[..m] && run[m] == open[m] && run[m-1] == open[m-1]; }
      else { assert run[..m] == open && run[m-1] == open[|open|-1]; }
    }
  }

  lemma LastGrown(input: Run, stops: seq<bool>, sizes: TableSizes, done: seq<Run>, open: Run, open': Run)
    requires RightCuts(input, stops, sizes, done + [open]) && RightInside(input, stops, sizes, open')
    requires open != [] && open' != [] && open'[0] == open[0]
    ensures RightCuts(input, stops, sizes, done + [open'])
  {
    var a, b := done + [open], done + [open'];
    hide StopBetween, RightInside;
    forall k | 0 <= k < |b| ensures RightInside(input, stops, sizes, b[k]) { assert k < |done| ==> a[k] == b[k]; }
    forall k | 0 <= k < |b| - 1 ensures RightEnd(input, stops, sizes, b[k], b[k+1]) {
      assert RightEnd(input, stops, sizes, a[k], a[k+1]) && a[k] == b[k];
    }
  }

  lemma OneMoreTable(input: Run, stops: seq<bool>, sizes: TableSizes, done: seq<Run>, run: Run)
    requires RightCuts(input, stops, sizes, done) && RightInside(input, stops, sizes, run)
    requires done != [] ==> RightEnd(input, stops, sizes, done[|done|-1], run)
    ensures RightCuts(input, stops, sizes, done + [run])
  {
    var b := done + [run];
    hide RightInside, RightEnd;
    forall k | 0 <= k < |b| - 1 ensures RightEnd(input, stops, sizes, b[k], b[k+1]) {
      assert k + 1 < |done| ==> RightEnd(input, stops, sizes, done[k], done[k+1]);
    }
  }

  lemma MayBeginEnds(input: Run, stops: seq<bool>, sizes: TableSizes, n: nat, run: Run, next: Run)
    requires MayBegin(input, stops, sizes, n + 1, run) && n < |input| == |stops| && next == [input[n]] && Sorted(input)
    ensures RightEnd(input, stops, sizes, run, next)
  {
    if sizes.building(run) < 2097152 {
      var i :| 0 <= i < n + 1 && stops[i] && Less(run[|run|-1].key, input[i].key);
      assert i < n ==> Less(input[i].key, input[n].key);
      assert StopBetween(input, stops, run[|run|-1], next[0]);
    }
  }

  lemma {:induction false} CutsSoFar(v: Version, c: Compaction, snapshot: nat, input: Run, sizes: TableSizes, n: nat)
    requires Sorted(input) && n <= |input|
    ensures CutSoFar(input, Stops(c, input), sizes, n, CutUpTo(v, c, snapshot, input, sizes, n))
  {
    if n == 0 {
      CutNone(v, c, snapshot, input, sizes);
      NothingSoFar(input, Stops(c, input), sizes);
    } else {
      hide CutSoFar, CutUpTo, Stops, Sorted;
      CutsSoFar(v, c, snapshot, input, sizes, n - 1);
      NextCut(v, c, snapshot, input, sizes, n - 1);
    }
  }

  lemma NothingSoFar(input: Run, stops: seq<bool>, sizes: TableSizes)
    ensures CutSoFar(input, stops, sizes, 0, Cut([], []))
  {
  }

  lemma NextCut(v: Version, c: Compaction, snapshot: nat, input: Run, sizes: TableSizes, n: nat)
    requires Sorted(input) && n < |input|
    requires CutSoFar(input, Stops(c, input), sizes, n, CutUpTo(v, c, snapshot, input, sizes, n))
    ensures CutSoFar(input, Stops(c, input), sizes, n + 1, CutUpTo(v, c, snapshot, input, sizes, n + 1))
  {
    var was, stops := CutUpTo(v, c, snapshot, input, sizes, n), Stops(c, input);
    var t := if stops[n] then Close(was) else was;
    assert CutUpTo(v, c, snapshot, input, sizes, n + 1) ==
           if Dropped(input, n, snapshot, v, c.level) then t else Put(sizes, t, input[n]);
    hide CutSoFar, CutUpTo, Stops, Sorted, Put, Close, StopsBefore, Dropped, All;
    CutIsKept(v, c, snapshot, input, sizes, n);
    KeptBefore(v, c, snapshot, input, n);
    LookIsRight(input, stops, sizes, n, was);
    LastIsBefore(was, t, input[n]);
    PutIsRight(input, stops, sizes, n, t);
  }

  lemma LastIsBefore(was: Cut, t: Cut, e: Entry)
    requires (t == was || t == Close(was)) && forall x :: x in All(was) ==> Less(x.key, e.key)
    ensures t.open != [] ==> Less(t.open[|t.open|-1].key, e.key)
  {
    if t.open != [] { assert was.open[|was.open|-1] in All(was); }
  }

  lemma KeptBefore(v: Version, c: Compaction, snapshot: nat, input: Run, n: nat)
    requires Sorted(input) && n < |input|
    ensures forall e :: e in KeptUpTo(input, n, snapshot, v, c.level) ==> Less(e.key, input[n].key)
  {
    forall e | e in KeptUpTo(input, n, snapshot, v, c.level) ensures Less(e.key, input[n].key) {
      assert e in input[..n];
    }
  }

  /** The tables of a compaction end exactly where they have to. */
  lemma CutsAreRight(v: Version, c: Compaction, snapshot: nat, input: Run, sizes: TableSizes)
    requires Sorted(input)
    ensures RightCuts(input, Stops(c, input), sizes, CutStream(v, c, snapshot, input, sizes))
  {
    CutsSoFar(v, c, snapshot, input, sizes, |input|);
    var t := CutUpTo(v, c, snapshot, input, sizes, |input|);
    assert Close(t).done == AllTables(t);
  }

  // ---------------------------------------------------------------- the cursors

  /** What a compaction remembers between two entries: where each lower level has been scanned to, how
      much of the grandparent level the current output overlaps, and the last key and sequence. */
  class CompactionCursor {
    const v: Version
    const c: Compaction
    var levelPtrs: seq<nat>
    var grandparentIndex: nat
    var seenKey: bool
    var overlappedBytes: nat
    var hasCurrentUserKey: bool
    var currentUserKey: UserKey
    var lastSequenceForKey: nat

    ghost var lastUser: Option<UserKey>     // the last key the lower levels were scanned for

    ghost predicate Valid()
      reads this
    {
      && |v| == |levelPtrs| == NUM_LEVELS && c.level + 1 < NUM_LEVELS
      && (forall l :: 1 <= l < NUM_LEVELS ==> LevelDisjoint(v[l]) && AllWellFormed(v[l]))
      && grandparentIndex <= |c.grandparents|
      && (forall l :: 0 <= l < NUM_LEVELS ==> Passed(v[l], levelPtrs[l], lastUser))
      && (lastUser.Some? ==> hasCurrentUserKey && lastUser.value <= currentUserKey)
    }

    /** The first i entries of the input have been handled. */
    ghost predicate Handled(input: Run, i: nat)
      reads this
    {
      && i <= |input|
      && (hasCurrentUserKey <==> i > 0)
      && (i > 0 ==> currentUserKey == input[i-1].key.user && lastSequenceForKey == input[i-1].key.sequence)
    }

    /** ShouldStopBefore has seen the first i keys of the input. */
    ghost predicate Counted(input: Run, i: nat)
      reads this
    {
      && i <= |input| && (seenKey <==> i > 0)
      && grandparentIndex == GrandAt(c, input, i).index && overlappedBytes == GrandAt(c, input, i).bytes
    }

    constructor (v: Version, c: Compaction)
      requires VersionOK(v) && c.level + 1 < NUM_LEVELS
      ensures Valid() && this.v == v && this.c == c
      ensures forall input :: Handled(input, 0) && Counted(input, 0)
    {
      this.v := v;
      this.c := c;
      levelPtrs := seq(NUM_LEVELS, i => 0);
      grandparentIndex := 0;
      seenKey := false;
      overlappedBytes := 0;
      hasCurrentUserKey, currentUserKey, lastSequenceForKey := false, 0.0, MAX_SEQUENCE;
      lastUser := None;
    }

    /** The drop decision of the loop body. */
    method ShouldDrop(e: Entry, snapshot: nat, ghost input: Run, ghost i: nat) returns (drop: bool)
      requires Valid() && Handled(input, i) && Sorted(input) && i < |input| && e == input[i]
      requires snapshot < MAX_SEQUENCE
      modifies this`levelPtrs, this`lastUser, this`hasCurrentUserKey, this`currentUserKey, this`lastSequenceForKey
      ensures Valid() && Handled(input, i + 1) && Counted(input, i + 1) == old(Counted(input, i + 1))
      ensures drop <==> Dropped(input, i, snapshot, v, c.level)
    {
      hide IsBaseLevel, Passed, LevelDisjoint, AllWellFormed;
      KeyOrder(input, i);
      drop := false;
      if !hasCurrentUserKey || e.key.user != currentUserKey {
        // First occurrence of this user key
        currentUserKey, hasCurrentUserKey, lastSequenceForKey := e.key.user, true, MAX_SEQUENCE;
      }
      if lastSequenceForKey <= snapshot {
        // Hidden by a newer entry for the same user key
        drop := true;
      } else if e.key.kind == Deletion && e.key.sequence <= snapshot {
        var base := IsBaseLevelForKey(e.key.user);
        if base {
          // An obsolete deletion: nothing below, and everything older here is dropped too
          drop := true;
        }
      }
      lastSequenceForKey := e.key.sequence;
    }

    /** IsBaseLevelForKey. The pointers only move forward, so keys must be asked for in order; the
        answer is that of a full scan of the lower levels. */
    method IsBaseLevelForKey(user: UserKey) returns (r: bool)
      requires Valid() && hasCurrentUserKey && user == currentUserKey
      modifies this`levelPtrs, this`lastUser
      ensures Valid()
      ensures r <==> IsBaseLevel(v, c.level, user)
    {
      lastUser := Some(user);
      for lvl := c.level + 2 to NUM_LEVELS
        invariant Valid() && lastUser == Some(user) && hasCurrentUserKey && currentUserKey == user
        invariant forall l, f :: c.level + 2 <= l < lvl && f in v[l] ==> !(f.smallest.user <= user <= f.largest.user)
      {
        while levelPtrs[lvl] < |v[lvl]|
          invariant Valid() && lastUser == Some(user) && hasCurrentUserKey && currentUserKey == user
          decreases |v[lvl]| - levelPtrs[lvl]
        {
          var f := v[lvl][levelPtrs[lvl]];
          if user <= f.largest.user {
            // Advanced far enough
            if user >= f.smallest.user {
              assert f in v[lvl];
              return false;
            }
            break;
          }
          levelPtrs := levelPtrs[lvl := levelPtrs[lvl] + 1];
        }
        NothingAhead(v[lvl], levelPtrs[lvl], user);
      }
      r := true;
    }

    /** ShouldStopBefore: start a new output once the current one overlaps too many grandparent bytes. */
    method ShouldStopBefore(key: InternalKey, ghost input: Run, ghost i: nat) returns (stop: bool)
      requires Valid() && Handled(input, i) && Counted(input, i) && i < |input| && key == input[i].key
      modifies this`grandparentIndex, this`seenKey, this`overlappedBytes
      ensures Valid() && Handled(input, i) && Counted(input, i + 1)
      ensures stop <==> StopsBefore(c, input, i)
    {
      hide TotalFileSize, LevelDisjoint, AllWellFormed, Passed;
      ghost var start := grandparentIndex;
      ghost var rest := c.grandparents[grandparentIndex..];
      NoFilesNoSize(rest);
      while grandparentIndex < |c.grandparents| && Less(c.grandparents[grandparentIndex].largest, key)
        invariant Valid() && Handled(input, i) && start <= grandparentIndex
        invariant PassedBy(c.grandparents, grandparentIndex, key) == PassedBy(c.grandparents, start, key)
        invariant overlappedBytes == GrandAt(c, input, i).bytes +
          (if seenKey then TotalFileSize(rest[..grandparentIndex-start]) else 0)
        invariant seenKey <==> i > 0
        decreases |c.grandparents| - grandparentIndex
      {
        SizeOfPrefix(rest, grandparentIndex - start);
        if seenKey {
          overlappedBytes := overlappedBytes + c.grandparents[grandparentIndex].size;
        }
        grandparentIndex := grandparentIndex + 1;
      }
      assert rest[..grandparentIndex-start] == c.grandparents[start..grandparentIndex];
      seenKey := true;
      if overlappedBytes > MAX_GRANDPARENT_OVERLAP_BYTES {
        overlappedBytes := 0;
        stop := true;
      } else {
        stop := false;
      }
    }
  }

  /** The files before the pointer end before the last key asked for. */
  ghost predicate Passed(files: Level, ptr: nat, user: Option<UserKey>) {
    ptr <= |files| && forall i :: 0 <= i < ptr ==> user.Some? && files[i].largest.user < user.value
  }

  /** When the scan of a level stops without a match, no file of the level holds the key. */
  lemma NothingAhead(files: Level, ptr: nat, user: UserKey)
    requires LevelDisjoint(files) && AllWellFormed(files) && Passed(files, ptr, Some(user))
    requires ptr < |files| ==> user < files[ptr].smallest.user
    ensures forall f :: f in files ==> !(f.smallest.user <= user <= f.largest.user)
  {
    forall f | f in files ensures !(f.smallest.user <= user <= f.largest.user) {
      var i :| 0 <= i < |files| && files[i] == f;
      if i > ptr {
        var g := files[ptr];
        assert g in files;
        EntryInBounds(g, g.entries[0]);
        assert Less(g.largest, f.smallest);
      }
    }
  }

  // ---------------------------------------------------------------- output files

  /** An output table as FinishCompactionOutputFile leaves it. */
  ghost predicate IsOutput(f: File) {
    f.entries != [] && f.smallest == f.entries[0].key && f.largest == f.entries[|f.entries|-1].key
  }

  /** Cutting a sorted stream into tables gives sorted, disjoint tables. */
  lemma {:induction false} OutputsDisjoint(outputs: Level)
    requires Sorted(Concat(outputs)) && forall i :: 0 <= i < |outputs| ==> IsOutput(outputs[i])
    ensures LevelDisjoint(outputs)
    ensures forall i :: 0 <= i < |outputs| ==> Sorted(outputs[i].entries)
  {
    if outputs != [] {
      var n := |outputs| - 1;
      var all, before, last := Concat(outputs), Concat(outputs[..n]), outputs[n];
      forall i, j | 0 <= i < j < |before| ensures Less(before[i].key, before[j].key) {
        assert all[i] == before[i] && all[j] == before[j];
      }
      OutputsDisjoint(outputs[..n]);
      forall i, j | 0 <= i < j < |last.entries| ensures Less(last.entries[i].key, last.entries[j].key) {
        assert all[|before| + i] == last.entries[i] && all[|before| + j] == last.entries[j];
      }
      forall k | 0 <= k < n ensures Less(outputs[k].largest, last.smallest) {
        var e := outputs[k].entries[|outputs[k].entries|-1];
        assert outputs[..n][k] == outputs[k];
        assert InFiles(outputs[..n], e) by { assert outputs[k] in outputs[..n] && e in outputs[k].entries; }
        ConcatElements(outputs[..n], e);
        var i :| 0 <= i < |before| && before[i] == e;
        assert all[i] == before[i] && all[|before|] == last.entries[0];
      }
    }
  }

  /** The input stream of a compaction: all entries of its input files, sorted. */
  ghost predicate InputStream(c: Compaction, input: Run) {
    Sorted(input) && forall e :: e in input <==> InInputs(c, e)
  }

  /** What a finished compaction hands to InstallCompactionResults: the kept entries of its input
      stream, cut into tables where the code cuts them. */
  ghost predicate CompactionOutputs(v: Version, c: Compaction, snapshot: nat, first: nat, sizes: TableSizes,
                                    input: Run, outputs: Level) {
    && InputStream(c, input)
    && AreTables(outputs, first, sizes, CutStream(v, c, snapshot, input, sizes))
    && Concat(outputs) == KeptStream(input, snapshot, v, c.level)
    && LevelDisjoint(outputs) && AllWellFormed(outputs)
    && forall i :: 0 <= i < |outputs| ==> outputs[i].number == first + i
  }

  lemma KeptIsInput(input: Run, snapshot: nat, v: Version, level: nat, e: Entry)
    requires e in KeptStream(input, snapshot, v, level)
    ensures e in input
  {
    assert e in input[..|input|];
  }

  lemma OutputWellFormed(v: Version, c: Compaction, snapshot: nat, input: Run, outputs: Level, f: File)
    requires AllWellFormed(c.inputs0) && AllWellFormed(c.inputs1) && InputStream(c, input)
    requires Concat(outputs) == KeptStream(input, snapshot, v, c.level)
    requires f in outputs && IsOutput(f) && Sorted(f.entries)
    ensures WellFormed(f)
  {
    forall e | e in f.entries ensures e.key.sequence <= MAX_SEQUENCE {
      assert InFiles(outputs, e);
      ConcatElements(outputs, e);
      KeptIsInput(input, snapshot, v, c.level, e);
      assert InInputs(c, e);
    }
  }

  lemma OutputsReady(v: Version, c: Compaction, snapshot: nat, first: nat, sizes: TableSizes, input: Run, outputs: Level)
    requires VersionOK(v) && PickOK(v, c) && InputStream(c, input)
    requires AreTables(outputs, first, sizes, CutStream(v, c, snapshot, input, sizes))
    ensures CompactionOutputs(v, c, snapshot, first, sizes, input, outputs)
  {
    InputFilesOrdered(v, c);
    assert Sorted(input);
    TablesHoldKept(v, c, snapshot, first, sizes, input, outputs);
    hide CutUpTo, PickOK, LevelNewer, NewerByNumber, DistinctNumbers, KeptUpTo, InputStream, AllWellFormed, WellFormed;
    KeptUpToSorted(input, |input|, snapshot, v, c.level);
    OutputsDisjoint(outputs);
    forall i | 0 <= i < |outputs| ensures WellFormed(outputs[i]) {
      OutputWellFormed(v, c, snapshot, input, outputs, outputs[i]);
    }
    EachWellFormed(outputs);
  }

  function Flat(runs: seq<Run>): Run {
    if runs == [] then [] else Flat(runs[..|runs|-1]) + runs[|runs|-1]
  }

  function All(t: Cut): Run { Flat(t.done) + t.open }

  lemma CloseKeepsAll(t: Cut)
    ensures All(Close(t)) == All(t) && Close(t).open == [] && Flat(Close(t).done) == All(t)
  {
    assert (t.done + [t.open])[..|t.done|] == t.done;
  }

  lemma PutAddsOne(sizes: TableSizes, t: Cut, e: Entry)
    ensures All(Put(sizes, t, e)) == All(t) + [e]
  {
    var open := t.open + [e];
    assert (t.done + [open])[..|t.done|] == t.done;
    assert Flat(t.done) + open == (Flat(t.done) + t.open) + [e];
  }

  /** What is closed and what is open are the kept entries, wherever the cuts are. */
  lemma {:induction false} CutIsKept(v: Version, c: Compaction, snapshot: nat, input: Run, sizes: TableSizes, n: nat)
    requires n <= |input|
    ensures All(CutUpTo(v, c, snapshot, input, sizes, n)) == KeptUpTo(input, n, snapshot, v, c.level)
  {
    hide All, Put, Close, StopsBefore, Dropped;
    if n == 0 {
      assert All(Cut([], [])) == [] by { NothingCut(); }
    } else {
      CutIsKept(v, c, snapshot, input, sizes, n - 1);
      var was := CutUpTo(v, c, snapshot, input, sizes, n - 1);
      CloseKeepsAll(was);
      PutAddsOne(sizes, if StopsBefore(c, input, n - 1) then Close(was) else was, input[n-1]);
    }
  }

  lemma NothingCut()
    ensures All(Cut([], [])) == []
  {
  }

  lemma {:induction false} TablesFlat(outputs: Level, first: nat, sizes: TableSizes, runs: seq<Run>)
    requires AreTables(outputs, first, sizes, runs)
    ensures Concat(outputs) == Flat(runs)
  {
    if runs != [] { TablesFlat(outputs[..|outputs|-1], first, sizes, runs[..|runs|-1]); }
  }

  lemma TablesHoldKept(v: Version, c: Compaction, snapshot: nat, first: nat, sizes: TableSizes, input: Run, outputs: Level)
    requires AreTables(outputs, first, sizes, CutStream(v, c, snapshot, input, sizes))
    ensures Concat(outputs) == KeptStream(input, snapshot, v, c.level)
    ensures forall i :: 0 <= i < |outputs| ==> IsOutput(outputs[i]) && outputs[i].number == first + i
  {
    CutIsKept(v, c, snapshot, input, sizes, |input|);
    CloseKeepsAll(CutUpTo(v, c, snapshot, input, sizes, |input|));
    TablesFlat(outputs, first, sizes, CutStream(v, c, snapshot, input, sizes));
  }

  lemma EachWellFormed(files: Level)
    requires forall i :: 0 <= i < |files| ==> WellFormed(files[i])
    ensures AllWellFormed(files)
  {
    hide WellFormed;
  }

  /** CompactionState: the finished outputs and the table being built. */
  class CompactionState {
    const firstNumber: nat
    const sizes: TableSizes
    var outputs: Level
    var builder: Run
    var smallest: InternalKey
    var largest: InternalKey

    ghost var done: seq<Run>         // what the outputs hold

    ghost predicate Valid()
      reads this
    {
      && AreTables(outputs, firstNumber, sizes, done)
      && (builder != [] ==> smallest == builder[0].key && largest == builder[|builder|-1].key)
    }

    ghost function Tables(): Cut
      reads this
    {
      Cut(done, builder)
    }

    constructor (firstNumber: nat, sizes: TableSizes)
      ensures Valid() && Tables() == Cut([], []) && this.firstNumber == firstNumber && this.sizes == sizes
    {
      this.firstNumber := firstNumber;
      this.sizes := sizes;
      outputs, builder, done := [], [], [];
      smallest, largest := InternalKey(0.0, 0, Deletion), InternalKey(0.0, 0, Deletion);
    }

    method FinishOutput()
      requires Valid()
      modifies this
      ensures Valid() && Tables() == Close(old(Tables()))
    {
      if builder != [] {
        var f := File(firstNumber + |outputs|, sizes.finished(builder), smallest, largest, builder);
        AreTablesAppend(outputs, firstNumber, sizes, done, f, builder);
        done := done + [builder];
        outputs, builder := outputs + [f], [];
      }
    }

    method Add(e: Entry)
      requires Valid()
      modifies this
      ensures Valid() && Tables() == Put(sizes, old(Tables()), e)
    {
      if builder == [] {
        smallest := e.key;
      }
      largest := e.key;
      builder := builder + [e];
      // Close the output if it is big enough
      if sizes.building(builder) >= TARGET_FILE_SIZE {
        FinishOutput();
      }
    }
  }

  // ---------------------------------------------------------------- the loop

  /** MakeInputIterator. */
  method MakeInputIterator(v: Version, c: Compaction) returns (input: MergingIterator)
    requires VersionOK(v) && PickOK(v, c)
    ensures fresh(input) && input.Valid() && InputStream(c, input.merged)
  {
    InputRunsReady(v, c);
    input := new MergingIterator(InputRuns(c));
    forall e ensures e in input.merged <==> InInputs(c, e) {
      MergeAllElements(InputRuns(c), e);
      InputRunsElements(c, e);
    }
  }

  /** One round of the loop: perhaps cut the output, then drop the entry or add it. */
  method HandleEntry(cursor: CompactionCursor, compact: CompactionState, e: Entry, snapshot: nat,
                     ghost stream: Run, ghost i: nat)
    requires cursor.Valid() && cursor.Handled(stream, i) && cursor.Counted(stream, i)
    requires compact.Valid() && snapshot < MAX_SEQUENCE
    requires Sorted(stream) && i < |stream| && e == stream[i]
    requires compact.Tables() == CutUpTo(cursor.v, cursor.c, snapshot, stream, compact.sizes, i)
    modifies cursor, compact
    ensures cursor.Valid() && cursor.Handled(stream, i + 1) && cursor.Counted(stream, i + 1) && compact.Valid()
    ensures compact.Tables() == CutUpTo(cursor.v, cursor.c, snapshot, stream, compact.sizes, i + 1)
  {
    hide Dropped, Sorted, StopsBefore, AreTables;
    hide CompactionCursor.Valid, CompactionCursor.Handled, CompactionCursor.Counted, CompactionState.Valid;
    var stop := cursor.ShouldStopBefore(e.key, stream, i);
    if stop {
      compact.FinishOutput();
    }
    var drop := cursor.ShouldDrop(e, snapshot, stream, i);
    if !drop {
      compact.Add(e);
    }
  }

  /** Merges the inputs, drops what no live snapshot can see, and cuts the rest into tables. */
  method DoCompactionWork(v: Version, c: Compaction, snapshot: nat, firstNumber: nat, sizes: TableSizes)
      returns (outputs: Level, ghost stream: Run)
    requires VersionOK(v) && PickOK(v, c) && snapshot < MAX_SEQUENCE
    ensures CompactionOutputs(v, c, snapshot, firstNumber, sizes, stream, outputs)
    ensures exists s :: CompactionOutputs(v, c, snapshot, firstNumber, sizes, s, outputs)
    // where the tables end, told of keys and file bounds alone
    ensures exists runs :: AreTables(outputs, firstNumber, sizes, runs) && RightCuts(stream, Stops(c, stream), sizes, runs)
    ensures HasGrandparents(v, c) ==> RightStops(c.grandparents, stream, Stops(c, stream))
  {
    assert c.level + 1 < NUM_LEVELS;
    var input := MakeInputIterator(v, c);
    stream := input.merged;
    assert Sorted(stream);
    hide VersionOK, PickOK, Dropped, KeptUpTo, CutUpTo, AreTables;
    hide CompactionCursor.Valid, CompactionCursor.Handled, CompactionCursor.Counted;
    hide MergingIterator.Valid, Sorted, InInputs, Concat, InputStream;
    var cursor := new CompactionCursor(v, c);
    var compact := new CompactionState(firstNumber, sizes);
    input.SeekToFirst();
    MergeLoop(input, cursor, compact, snapshot);
    compact.FinishOutput();
    outputs := compact.outputs;
    OutputsReady(v, c, snapshot, firstNumber, sizes, stream, outputs);
    CutsAreRight(v, c, snapshot, stream, sizes);
    hide RightCuts, RightStops, Stops, CutStream;
    assert AreTables(outputs, firstNumber, sizes, CutStream(v, c, snapshot, stream, sizes));
    if HasGrandparents(v, c) { GrandparentsInOrder(v, c); StopsAreRight(c, stream); }
  }

  lemma GrandparentsInOrder(v: Version, c: Compaction)
    requires VersionOK(v) && HasGrandparents(v, c)
    ensures LevelDisjoint(c.grandparents) && AllWellFormed(c.grandparents)
  {
    if c.level + 2 < NUM_LEVELS {
      LevelFacts(v, c.level + 2);
      var start, limit :| IsRange(c.inputs0 + c.inputs1, start, limit) &&
        c.grandparents == Overlapping(v[c.level+2], Some(start.user), Some(limit.user));
      OverlappingKeepsOrder(v[c.level+2], Some(start.user), Some(limit.user));
    }
  }

  method MergeLoop(input: MergingIterator, cursor: CompactionCursor, compact: CompactionState, snapshot: nat)
    requires input.Valid() && input.pos == 0
    requires cursor.Valid() && cursor.Handled(input.merged, 0) && cursor.Counted(input.merged, 0)
    requires compact.Valid() && compact.Tables() == Cut([], []) && snapshot < MAX_SEQUENCE
    modifies input, cursor, compact
    ensures compact.Valid()
    ensures compact.Tables() == CutUpTo(cursor.v, cursor.c, snapshot, input.merged, compact.sizes, |input.merged|)
  {
    hide Dropped, Sorted, CutUpTo, AreTables;
    hide CompactionCursor.Valid, CompactionCursor.Handled, CompactionCursor.Counted, CompactionState.Valid;
    hide MergingIterator.Valid;
    ghost var stream := input.merged;
    MergedInOrder(input);
    CutNone(cursor.v, cursor.c, snapshot, stream, compact.sizes);
    while input.IsValid()
      invariant input.Valid() && input.pos <= |stream|
      invariant cursor.Valid() && cursor.Handled(stream, input.pos) && cursor.Counted(stream, input.pos)
      invariant compact.Valid()
      invariant compact.Tables() == CutUpTo(cursor.v, cursor.c, snapshot, stream, compact.sizes, input.pos)
      decreases |stream| - input.pos
    {
      HandleEntry(cursor, compact, input.Current(), snapshot, stream, input.pos);
      input.Next();
    }
  }

  lemma MergedInOrder(input: MergingIterator)
    requires input.Valid()
    ensures Sorted(input.merged)
  {
  }

  lemma CutNone(v: Version, c: Compaction, snapshot: nat, input: Run, sizes: TableSizes)
    ensures CutUpTo(v, c, snapshot, input, sizes, 0) == Cut([], [])
  {
  }

  lemma KeyOrder(run: Run, i: nat)
    requires Sorted(run) && i < |run|
    ensures i > 0 ==> run[i-1].key.user <= run[i].key.user
  {
    if i > 0 { assert Less(run[i-1].key, run[i].key); }
  }
}
