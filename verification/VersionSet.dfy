/** The version set: installing edits, the MANIFEST log, and recovery from it
    (LogAndApply, WriteSnapshot and Recover in leveldb/db/version_set.cc). */
module VersionSets {
  import opened Options
  import opened Runs
  import opened Versions
  import opened Builder

  /** What every version that has been current satisfies. */
  ghost predicate Stored(v: Version) {
    && |v| == NUM_LEVELS
    && (forall l :: 0 <= l < NUM_LEVELS ==> AllWellFormed(v[l]) && LevelSorted(v[l]))
    && (forall l :: 1 <= l < NUM_LEVELS ==> LevelDisjoint(v[l]))
  }

  /** The edit's files are well formed, and their numbers are new to their levels: no earlier version
      had a file of that number there. */
  ghost predicate FreshFiles(versions: seq<Version>, edit: VersionEdit) {
    forall n :: n in edit.newFiles ==>
      && n.level < NUM_LEVELS && WellFormed(n.file)
      && (forall v: Version, g: File :: v in versions && |v| == NUM_LEVELS && g in v[n.level] ==> g.number != n.file.number)
      && (forall m :: m in edit.newFiles && m.level == n.level ==> m == n || m.file.number != n.file.number)
  }

  /** Applying the edit leaves levels >= 1 without overlap. */
  ghost predicate StaysApart(v: Version, edit: VersionEdit) {
    |v| == NUM_LEVELS &&
    forall l, f, g :: 1 <= l < NUM_LEVELS && InEdited(v[l], edit, l, f) && InEdited(v[l], edit, l, g) ==> Apart(f, g)
  }

  /** WriteSnapshot: one edit that adds every file of the version. */
  function LevelRecord(v: Version, l: nat): seq<LevelFile>
    requires l < |v|
  {
    seq(|v[l]|, i requires 0 <= i < |v[l]| => LevelFile(l, v[l][i]))
  }

  function FileRecords(v: Version, n: nat): seq<LevelFile>
    requires n <= |v|
  {
    if n == 0 then [] else FileRecords(v, n - 1) + LevelRecord(v, n - 1)
  }

  function SnapshotEdit(v: Version): VersionEdit {
    VersionEdit(None, {}, FileRecords(v, |v|))
  }

  lemma {:induction false} FileRecordsMeaning(v: Version, n: nat, l: nat, f: File)
    requires n <= |v|
    ensures LevelFile(l, f) in FileRecords(v, n) <==> l < n && f in v[l]
  {
    if n > 0 {
      FileRecordsMeaning(v, n - 1, l, f);
      var r := LevelRecord(v, n - 1);
      if LevelFile(l, f) in r {
        var i :| 0 <= i < |r| && r[i] == LevelFile(l, f);
        assert v[n-1][i] == f;
      }
      if l == n - 1 && f in v[l] {
        var i :| 0 <= i < |v[l]| && v[l][i] == f;
        assert r[i] == LevelFile(l, f);
      }
    }
  }

  function FilesOfLevel(v: Version, l: nat): Level {
    if l < |v| then v[l] else []
  }


  /** The MANIFEST `records` describe the `versions`: a snapshot of the first and then one edit for
      each step. */
  ghost predicate Describes(records: seq<VersionEdit>, versions: seq<Version>) {
    && |records| == |versions| > 0
    && (forall v :: v in versions ==> Stored(v))
    && records[0] == SnapshotEdit(versions[0])
    && (forall l :: 0 <= l < NUM_LEVELS ==> DistinctNumbers(FilesOfLevel(versions[0], l)))
    && forall i :: 1 <= i < |records| ==>
         && EditInRange(records[i]) && FreshFiles(versions[..i], records[i])
         && Applied(versions[i-1], records[i], versions[i])
  }

  /** The log number recovery ends with: the last one recorded. */
  function LastLogNumber(records: seq<VersionEdit>): nat {
    if records == [] then 0
    else
      var last := records[|records|-1];
      if last.logNumber.Some? then last.logNumber.value else LastLogNumber(records[..|records|-1])
  }

  /** State of a builder on an empty base that has applied the first n records. */
  ghost predicate Replayed(deleted: seq<set<nat>>, added: seq<Level>, versions: seq<Version>, n: nat) {
    && |deleted| == |added| == NUM_LEVELS && 0 < n <= |versions|
    && (forall l, f :: 0 <= l < NUM_LEVELS ==>
          (Kept([], added[l], deleted[l], f) <==> f in FilesOfLevel(versions[n-1], l)))
    && (forall l, f :: 0 <= l < NUM_LEVELS && f in added[l] ==> SeenBefore(versions, n, l, f))
  }

  /** One of the first n versions had the file in this level. */
  ghost predicate SeenBefore(versions: seq<Version>, n: nat, l: nat, f: File) {
    exists i :: 0 <= i < n && i < |versions| && f in FilesOfLevel(versions[i], l)
  }

  lemma FirstRecord(records: seq<VersionEdit>, versions: seq<Version>, deleted: seq<set<nat>>, added: seq<Level>)
    requires Describes(records, versions)
    requires AfterApply(NO_NUMBERS, NO_FILES, records[0], deleted, added)
    ensures Replayed(deleted, added, versions, 1)
  {
    var v := versions[0];
    assert v in versions && Stored(v);
    forall l, f | 0 <= l < NUM_LEVELS
      ensures (f in added[l] <==> f in v[l]) && deleted[l] == {}
      ensures f in added[l] ==> SeenBefore(versions, 1, l, f)
    {
      FileRecordsMeaning(v, |v|, l, f);
      if f in v[l] {
        assert DistinctNumbers(FilesOfLevel(v, l)) && FilesOfLevel(v, l) == v[l];
        forall g | LevelFile(l, g) in records[0].newFiles ensures g == f || g.number != f.number {
          FileRecordsMeaning(v, |v|, l, g);
        }
        assert OnlyWithItsNumber([], records[0], l, f);
      }
      assert f in added[l] ==> f in FilesOfLevel(versions[0], l);
    }
  }

  /** One more record takes the builder from one version to the next: fresh file numbers keep an
      earlier deletion from being undone and an earlier file from coming back. */
  lemma NextRecord(records: seq<VersionEdit>, versions: seq<Version>, n: nat,
                   deleted: seq<set<nat>>, added: seq<Level>, deleted': seq<set<nat>>, added': seq<Level>)
    requires Describes(records, versions) && 1 <= n < |records|
    requires Replayed(deleted, added, versions, n)
    requires AfterApply(deleted, added, records[n], deleted', added')
    ensures Replayed(deleted', added', versions, n + 1)
  {
    var edit := records[n];
    var v, v' := versions[n-1], versions[n];
    assert v in versions && v' in versions;
    forall l, f | 0 <= l < NUM_LEVELS
      ensures Kept([], added'[l], deleted'[l], f) <==> f in v'[l]
      ensures f in added'[l] ==> SeenBefore(versions, n + 1, l, f)
    {
      NewFileIsFresh(records, versions, n, added, l, f);
      if f in added[l] {
        var i :| 0 <= i < n && f in FilesOfLevel(versions[i], l);
      }
      assert f in v'[l] <==> InEdited(v[l], edit, l, f);
      assert Kept([], added[l], deleted[l], f) <==> f in FilesOfLevel(v, l);
      if LevelFile(l, f) in edit.newFiles { assert f in FilesOfLevel(versions[n], l); }
    }
  }

  /** A new file's number is not that of any file the builder has seen in the level. */
  lemma NewFileIsFresh(records: seq<VersionEdit>, versions: seq<Version>, n: nat, added: seq<Level>, l: nat, f: File)
    requires Describes(records, versions) && 1 <= n < |records| && l < NUM_LEVELS && |added| == NUM_LEVELS
    requires forall g :: g in added[l] ==> SeenBefore(versions, n, l, g)
    ensures LevelFile(l, f) in records[n].newFiles ==> OnlyWithItsNumber(added[l], records[n], l, f)
    ensures f in added[l] ==> !exists g :: LevelFile(l, g) in records[n].newFiles && g.number == f.number
  {
    assert FreshFiles(versions[..n], records[n]);
    forall g, h | g in added[l] && LevelFile(l, h) in records[n].newFiles ensures g.number != h.number {
      var i :| 0 <= i < n && g in FilesOfLevel(versions[i], l);
      assert versions[..n][i] == versions[i] && versions[i] in versions[..n] && versions[i] in versions;
    }
    if LevelFile(l, f) in records[n].newFiles {
      forall g | LevelFile(l, g) in records[n].newFiles ensures g == f || g.number != f.number {
        assert LevelFile(l, g).level == LevelFile(l, f).level;
      }
    }
  }

  lemma ReadyToSave(versions: seq<Version>, deleted: seq<set<nat>>, added: seq<Level>, l: nat)
    requires (forall v :: v in versions ==> Stored(v)) && l < NUM_LEVELS
    requires Replayed(deleted, added, versions, |versions|) && LevelSorted(added[l])
    ensures MergeInputs(l, [], added[l], deleted[l])
  {
    var last := versions[|versions|-1];
    assert last in versions;
    forall f | f in added[l] ensures WellFormed(f) {
      var i :| 0 <= i < |versions| && f in FilesOfLevel(versions[i], l);
      assert versions[i] in versions;
    }
    if l > 0 {
      forall f, g | Kept([], added[l], deleted[l], f) && Kept([], added[l], deleted[l], g) ensures Apart(f, g) {
        assert f in last[l] && g in last[l];
        var i :| 0 <= i < |last[l]| && last[l][i] == f;
        var j :| 0 <= j < |last[l]| && last[l][j] == g;
      }
    }
  }

  /** Recover: replay the MANIFEST through one builder on an empty base. The result is the version
      that was current after the last record, file by file, and its log number. */
  method Recover(records: seq<VersionEdit>, ghost versions: seq<Version>) returns (v: Version, logNumber: nat)
    requires Describes(records, versions)
    ensures v == versions[|versions|-1]
    ensures logNumber == LastLogNumber(records)
  {
    hide AfterApply, Replayed;
    assert Stored(versions[0]) && Stored(versions[|versions|-1]) by {
      assert versions[0] in versions && versions[|versions|-1] in versions;
    }
    var builder := new Builder(NO_FILES);
    logNumber := 0;
    for i := 0 to |records|
      invariant builder.Valid() && builder.base == NO_FILES
      invariant if i == 0 then builder.deleted == NO_NUMBERS && builder.added == NO_FILES
                else Replayed(builder.deleted, builder.added, versions, i)
      invariant logNumber == LastLogNumber(records[..i])
    {
      ghost var deleted, added := builder.deleted, builder.added;
      SnapshotInRange(versions[0]);
      builder.Apply(records[i]);
      if i == 0 {
        FirstRecord(records, versions, builder.deleted, builder.added);
      } else {
        NextRecord(records, versions, i, deleted, added, builder.deleted, builder.added);
      }
      if records[i].logNumber.Some? {
        logNumber := records[i].logNumber.value;
      }
      assert records[..i+1] == records[..i] + [records[i]] && records[..i+1][..i] == records[..i];
    }
    assert records[..|records|] == records;
    forall l | 0 <= l < NUM_LEVELS
      ensures MergeInputs(l, builder.base[l], builder.added[l], builder.deleted[l])
    {
      ReadyToSave(versions, builder.deleted, builder.added, l);
    }
    v := builder.SaveTo();
    SameVersion(versions, builder.deleted, builder.added, v);
  }

  lemma SnapshotInRange(v: Version)
    requires |v| == NUM_LEVELS
    ensures EditInRange(SnapshotEdit(v))
  {
    forall n | n in SnapshotEdit(v).newFiles ensures n.level < NUM_LEVELS {
      FileRecordsMeaning(v, |v|, n.level, n.file);
      assert n == LevelFile(n.level, n.file);
    }
  }

  lemma SameVersion(versions: seq<Version>, deleted: seq<set<nat>>, added: seq<Level>, v: Version)
    requires |versions| > 0 && Stored(versions[|versions|-1])
    requires Replayed(deleted, added, versions, |versions|) && |v| == NUM_LEVELS
    requires forall l :: 0 <= l < NUM_LEVELS ==>
               LevelSorted(v[l]) && forall f :: f in v[l] <==> Kept([], added[l], deleted[l], f)
    ensures v == versions[|versions|-1]
  {
    var last := versions[|versions|-1];
    forall l | 0 <= l < NUM_LEVELS ensures v[l] == last[l] {
      forall f ensures f in v[l] <==> f in last[l] {
        assert f in v[l] <==> Kept([], added[l], deleted[l], f);
      }
      SortedListUnique(v[l], last[l]);
    }
  }

  // ---------------------------------------------------------------- the live version set

  /** One builder applying one edit to the current version saves exactly the edited version. */
  lemma OneEdit(versions: seq<Version>, v: Version, edit: VersionEdit, deleted: seq<set<nat>>, added: seq<Level>, l: nat)
    requires v in versions && Stored(v) && FreshFiles(versions, edit) && StaysApart(v, edit) && l < NUM_LEVELS
    requires AfterApply(NO_NUMBERS, NO_FILES, edit, deleted, added) && LevelSorted(added[l])
    ensures MergeInputs(l, v[l], added[l], deleted[l])
    ensures forall f :: Kept(v[l], added[l], deleted[l], f) <==> InEdited(v[l], edit, l, f)
  {
    forall f | LevelFile(l, f) in edit.newFiles
      ensures f in added[l] && forall g :: g in v[l] ==> g.number != f.number
    {
      assert LevelFile(l, f).level == l;
      forall g | LevelFile(l, g) in edit.newFiles ensures g == f || g.number != f.number {
        assert LevelFile(l, g).level == LevelFile(l, f).level;
      }
      assert OnlyWithItsNumber(NO_FILES[l], edit, l, f);
    }
    forall f | f in added[l] ensures LevelFile(l, f) in edit.newFiles && WellFormed(f) {
      assert f in NO_FILES[l] || LevelFile(l, f) in edit.newFiles;
      assert LevelFile(l, f).file == f;
    }
    forall f ensures Kept(v[l], added[l], deleted[l], f) <==> InEdited(v[l], edit, l, f) {
    }
  }

  lemma EditedIsStored(v: Version, edit: VersionEdit, v': Version, versions: seq<Version>)
    requires Stored(v) && Applied(v, edit, v') && StaysApart(v, edit) && FreshFiles(versions, edit)
    ensures Stored(v')
  {
    forall l, f | 0 <= l < NUM_LEVELS && f in v'[l] ensures WellFormed(f) {
      assert InEdited(v[l], edit, l, f);
      assert LevelFile(l, f).file == f;
    }
    forall l, i, j | 1 <= l < NUM_LEVELS && 0 <= i < j < |v'[l]|
      ensures Less(v'[l][i].largest, v'[l][j].smallest)
    {
      assert v'[l][i] in v'[l] && v'[l][j] in v'[l];
      assert BySmallest(v'[l][i], v'[l][j]);
      SortedApart(v'[l][i], v'[l][j]);
    }
  }

  class VersionSet {
    var current: Version
    var logNumber: nat
    var manifest: seq<VersionEdit>      // records of the descriptor log; none before it is opened

    ghost var versions: seq<Version>    // every version that has been current, oldest first

    ghost predicate Valid()
      reads this
    {
      && |versions| > 0 && versions[|versions|-1] == current
      && (forall v :: v in versions ==> Stored(v))
      && (if manifest == [] then |versions| == 1 && forall l :: 0 <= l < NUM_LEVELS ==> DistinctNumbers(FilesOfLevel(current, l))
          else Describes(manifest, versions) && logNumber == LastLogNumber(manifest))
    }

    constructor (v: Version, log: nat)
      requires Stored(v) && forall l :: 0 <= l < NUM_LEVELS ==> DistinctNumbers(v[l])
      ensures Valid() && current == v && logNumber == log && versions == [v]
    {
      current := v;
      logNumber := log;
      manifest := [];
      versions := [v];
    }

    /** LogAndApply: build the edited version, log the edit (after a snapshot of the version before
        it, if the log is new) and make the new version current. */
    method LogAndApply(edit: VersionEdit)
      requires Valid() && EditInRange(edit)
      requires edit.logNumber.Some? ==> edit.logNumber.value >= logNumber
      requires FreshFiles(versions, edit) && StaysApart(current, edit)
      modifies this
      ensures Valid() && Applied(old(current), edit, current)
      ensures versions == old(versions) + [current] && manifest != []
      ensures logNumber == if edit.logNumber.Some? then edit.logNumber.value else old(logNumber)
    {
      var record := if edit.logNumber.Some? then edit else edit.(logNumber := Some(logNumber));
      assert current in versions && Stored(current);
      hide AfterApply, FreshFiles, StaysApart, InEdited, MergeInputs, Describes, Kept, Applied, EditInRange;
      RecordReady(versions, current, edit, record);
      var builder := new Builder(current);
      builder.Apply(record);
      EveryLevelReady(versions, current, record, builder.deleted, builder.added);
      var v := builder.SaveTo();
      SavedIsApplied(current, record, builder.deleted, builder.added, v);
      EditedIsStored(current, record, v, versions);
      if manifest == [] {
        OpenLog(current);
        assert versions == [current];
        manifest := [SnapshotEdit(current)];
      }
      hide Stored, Applied, EditInRange, SnapshotEdit, LastLogNumber;
      LogGrows(manifest, versions, record, v);
      manifest := manifest + [record];
      current := v;
      logNumber := record.logNumber.value;
      versions := versions + [v];
    }
  }

  lemma EveryLevelReady(versions: seq<Version>, v: Version, edit: VersionEdit, deleted: seq<set<nat>>, added: seq<Level>)
    requires v in versions && Stored(v) && FreshFiles(versions, edit) && StaysApart(v, edit)
    requires AfterApply(NO_NUMBERS, NO_FILES, edit, deleted, added)
    requires forall l :: 0 <= l < NUM_LEVELS ==> LevelSorted(added[l])
    ensures forall l :: 0 <= l < NUM_LEVELS ==> MergeInputs(l, v[l], added[l], deleted[l])
    ensures forall l, f :: 0 <= l < NUM_LEVELS ==> (Kept(v[l], added[l], deleted[l], f) <==> InEdited(v[l], edit, l, f))
  {
    assert |v| == |deleted| == |added| == NUM_LEVELS;
    hide FreshFiles, StaysApart, MergeInputs, Kept, InEdited, AfterApply, LevelSorted;
    forall l | 0 <= l < NUM_LEVELS
      ensures MergeInputs(l, v[l], added[l], deleted[l])
      ensures forall f :: Kept(v[l], added[l], deleted[l], f) <==> InEdited(v[l], edit, l, f)
    {
      OneEdit(versions, v, edit, deleted, added, l);
    }
  }

  lemma SavedIsApplied(v: Version, edit: VersionEdit, deleted: seq<set<nat>>, added: seq<Level>, v': Version)
    requires |v| == |v'| == |deleted| == |added| == NUM_LEVELS
    requires forall l, f :: 0 <= l < NUM_LEVELS ==> (Kept(v[l], added[l], deleted[l], f) <==> InEdited(v[l], edit, l, f))
    requires forall l :: 0 <= l < NUM_LEVELS ==>
               LevelSorted(v'[l]) && forall f :: f in v'[l] <==> Kept(v[l], added[l], deleted[l], f)
    ensures Applied(v, edit, v')
  {
  }

  lemma RecordReady(versions: seq<Version>, v: Version, edit: VersionEdit, record: VersionEdit)
    requires FreshFiles(versions, edit) && StaysApart(v, edit) && EditInRange(edit)
    requires record == edit.(logNumber := record.logNumber)
    ensures FreshFiles(versions, record) && StaysApart(v, record) && EditInRange(record)
    ensures forall v' :: Applied(v, record, v') ==> Applied(v, edit, v')
  {
  }

  lemma OpenLog(v: Version)
    requires Stored(v) && forall l :: 0 <= l < NUM_LEVELS ==> DistinctNumbers(FilesOfLevel(v, l))
    ensures Describes([SnapshotEdit(v)], [v])
  {
  }

  lemma LogGrows(records: seq<VersionEdit>, versions: seq<Version>, record: VersionEdit, v: Version)
    requires Describes(records, versions)
    requires EditInRange(record) && FreshFiles(versions, record) && record.logNumber.Some?
    requires Applied(versions[|versions|-1], record, v) && Stored(v)
    ensures Describes(records + [record], versions + [v])
    ensures LastLogNumber(records + [record]) == record.logNumber.value
  {
    var rs, vs := records + [record], versions + [v];
    forall i | 1 <= i < |rs|
      ensures EditInRange(rs[i]) && FreshFiles(vs[..i], rs[i]) && Applied(vs[i-1], rs[i], vs[i])
    {
      assert vs[..i] == versions[..i];
      if i == |records| { assert versions[..i] == versions; }
    }
  }
}
