/** Version edits and the builder that applies them (VersionSet::Builder in
    leveldb/db/version_set.cc). */
module Builder {
  import opened Options
  import opened Runs
  import opened Versions

  datatype LevelFile = LevelFile(level: nat, file: File)
  datatype LevelNumber = LevelNumber(level: nat, number: nat)

  datatype VersionEdit = VersionEdit(logNumber: Option<nat>, deletedFiles: set<LevelNumber>, newFiles: seq<LevelFile>)

  ghost predicate EditInRange(edit: VersionEdit) {
    && (forall d :: d in edit.deletedFiles ==> d.level < NUM_LEVELS)
    && (forall n :: n in edit.newFiles ==> n.level < NUM_LEVELS)
  }

  /** What an edit means for one level: the files that are there afterwards. */
  ghost predicate InEdited(files: Level, edit: VersionEdit, l: nat, f: File) {
    (f in files && LevelNumber(l, f.number) !in edit.deletedFiles) || LevelFile(l, f) in edit.newFiles
  }

  /** v' is v with the edit applied: the right files in each level, in the builder's order. */
  ghost predicate Applied(v: Version, edit: VersionEdit, v': Version) {
    && |v| == |v'| == NUM_LEVELS
    && forall l :: 0 <= l < NUM_LEVELS ==> LevelSorted(v'[l]) && forall f :: f in v'[l] <==> InEdited(v[l], edit, l, f)
  }

  /** Two sorted lists with the same files are the same list. */
  lemma {:induction false} SortedListUnique(a: Level, b: Level)
    requires LevelSorted(a) && LevelSorted(b) && forall f :: f in a <==> f in b
    ensures a == b
  {
    assert |a| > 0 ==> a[0] in a;
    assert |b| > 0 ==> b[0] in b;
    if a != [] && b != [] {
      var i :| 0 <= i < |b| && b[i] == a[0];
      var j :| 0 <= j < |a| && a[j] == b[0];
      assert a[0] == b[0];
      forall f ensures f in a[1..] <==> f in b[1..] {
        TailOfSorted(a, f);
        TailOfSorted(b, f);
      }
      SortedListUnique(a[1..], b[1..]);
      assert a == [a[0]] + a[1..] && b == [b[0]] + b[1..];
    }
  }

  lemma TailOfSorted(a: Level, f: File)
    requires LevelSorted(a) && a != []
    ensures f in a[1..] <==> f in a && f != a[0]
  {
    if f in a[1..] {
      var i :| 0 <= i < |a[1..]| && a[1..][i] == f;
      assert BySmallest(a[0], a[i+1]);
    }
    if f in a && f != a[0] {
      var i :| 0 <= i < |a| && a[i] == f;
      assert a[1..][i-1] == f;
    }
  }

  /** The edit determines the version. */
  lemma AppliedUnique(v: Version, edit: VersionEdit, v1: Version, v2: Version)
    requires Applied(v, edit, v1) && Applied(v, edit, v2)
    ensures v1 == v2
  {
    forall l | 0 <= l < NUM_LEVELS ensures v1[l] == v2[l] {
      SortedListUnique(v1[l], v2[l]);
    }
  }

  /** No other file that the level or the edit names has the number of `f`. */
  ghost predicate OnlyWithItsNumber(files: Level, edit: VersionEdit, l: nat, f: File) {
    forall g :: g in files || LevelFile(l, g) in edit.newFiles ==> g == f || g.number != f.number
  }

  /** How an edit changes the deleted numbers and the added files. */
  ghost predicate AfterApply(deleted: seq<set<nat>>, added: seq<Level>, edit: VersionEdit,
                             deleted': seq<set<nat>>, added': seq<Level>) {
    && |deleted| == |added| == |deleted'| == |added'| == NUM_LEVELS
    && (forall l, n :: 0 <= l < NUM_LEVELS ==>
          (n in deleted'[l] <==>
             (n in deleted[l] || LevelNumber(l, n) in edit.deletedFiles) &&
             !exists f :: LevelFile(l, f) in edit.newFiles && f.number == n))
    && (forall l, f :: 0 <= l < NUM_LEVELS && f in added'[l] ==> f in added[l] || LevelFile(l, f) in edit.newFiles)
    && (forall l, f :: 0 <= l < NUM_LEVELS && f in added[l] ==> f in added'[l])
    && (forall l, f :: 0 <= l < NUM_LEVELS && LevelFile(l, f) in edit.newFiles ==>
          OnlyWithItsNumber(added[l], edit, l, f) ==> f in added'[l])
  }

  // ---------------------------------------------------------------- the builder

  /** FileSet::insert. A file that compares equal to one already there is not inserted. */
  function InsertBySmallest(files: Level, f: File): (r: Level)
    ensures forall g :: g in r ==> g == f || g in files
    ensures forall g :: g in files ==> g in r
    ensures (forall g :: g in files ==> g.number != f.number) ==> f in r
  {
    if files == [] then [f]
    else
      assert files == [files[0]] + files[1..];
      if BySmallest(f, files[0]) then [f] + files
      else if BySmallest(files[0], f) then [files[0]] + InsertBySmallest(files[1..], f)
      else files
  }

  lemma {:induction false} InsertKeepsSorted(files: Level, f: File)
    requires LevelSorted(files)
    ensures LevelSorted(InsertBySmallest(files, f))
  {
    if files != [] && !BySmallest(f, files[0]) && BySmallest(files[0], f) {
      InsertKeepsSorted(files[1..], f);
      var rest := InsertBySmallest(files[1..], f);
      forall k | 0 <= k < |rest| ensures BySmallest(files[0], rest[k]) {
        assert rest[k] in rest;
        if rest[k] != f {
          var m :| 0 <= m < |files[1..]| && files[1..][m] == rest[k];
          assert BySmallest(files[0], files[m+1]);
        }
      }
    }
  }

  /** Files that may share a level >= 1. */
  ghost predicate Apart(f: File, g: File) {
    f == g || Less(f.largest, g.smallest) || Less(g.largest, f.smallest)
  }

  /** What SaveTo keeps of one level. */
  ghost predicate Kept(base: Level, added: Level, deleted: set<nat>, f: File) {
    (f in base || f in added) && f.number !in deleted
  }

  ghost predicate KeptApart(base: Level, added: Level, deleted: set<nat>) {
    forall f, g :: Kept(base, added, deleted, f) && Kept(base, added, deleted, g) ==> Apart(f, g)
  }

  /** State of the merge in SaveTo: base[..b] and added[..a] have been taken. */
  ghost predicate Merging(base: Level, b: nat, added: Level, a: nat, deleted: set<nat>, out: Level) {
    && b <= |base| && a <= |added|
    && LevelSorted(out)
    && (forall f :: f in out <==> Kept(base[..b], added[..a], deleted, f))
    && (forall f, j :: f in out && b <= j < |base| ==> BySmallest(f, base[j]))
    && (forall f, j :: f in out && a <= j < |added| ==> BySmallest(f, added[j]))
  }

  ghost predicate MergeInputs(level: nat, base: Level, added: Level, deleted: set<nat>) {
    && LevelSorted(base) && LevelSorted(added) && NoSharedNumber(base, added)
    && AllWellFormed(base) && AllWellFormed(added)
    && (level > 0 ==> KeptApart(base, added, deleted))
  }

  lemma AppendSorted(out: Level, f: File)
    requires LevelSorted(out) && forall g :: g in out ==> BySmallest(g, f)
    ensures LevelSorted(out + [f])
  {
    forall i | 0 <= i < |out| ensures BySmallest(out[i], f) {
      assert out[i] in out;
    }
  }

  /** Sorted files that are pairwise apart are disjoint in order. */
  lemma SortedApart(f: File, g: File)
    requires WellFormed(f) && WellFormed(g) && BySmallest(f, g) && Apart(f, g)
    ensures Less(f.largest, g.smallest)
  {
    EntryInBounds(g, g.entries[0]);
  }

  /** MaybeAddFile, with its assertion that levels >= 1 do not overlap. */
  method MaybeAddFile(level: nat, out: Level, f: File, deleted: set<nat>) returns (r: Level)
    requires LevelSorted(out) && WellFormed(f) && AllWellFormed(out)
    requires forall g :: g in out ==> BySmallest(g, f)
    requires level > 0 && f.number !in deleted ==> forall g :: g in out ==> Apart(g, f)
    ensures r == if f.number in deleted then out else out + [f]
    ensures LevelSorted(r)
  {
    if f.number in deleted {
      r := out;
    } else {
      if level > 0 && |out| > 0 {
        assert out[|out|-1] in out;
        SortedApart(out[|out|-1], f);
        assert Less(out[|out|-1].largest, f.smallest);
      }
      AppendSorted(out, f);
      r := out + [f];
    }
  }

  lemma TakeBase(base: Level, b: nat, added: Level, a: nat, deleted: set<nat>, out: Level, r: Level)
    requires Merging(base, b, added, a, deleted, out) && b < |base| && LevelSorted(base)
    requires a < |added| ==> BySmallest(base[b], added[a]) && LevelSorted(added)
    requires r == (if base[b].number in deleted then out else out + [base[b]]) && LevelSorted(r)
    ensures Merging(base, b + 1, added, a, deleted, r)
  {
    assert base[..b+1] == base[..b] + [base[b]];
    forall j | a <= j < |added| ensures BySmallest(base[b], added[j]) {
      if j > a { assert BySmallest(added[a], added[j]); }
    }
  }

  lemma TakeAdded(base: Level, b: nat, added: Level, a: nat, deleted: set<nat>, out: Level, r: Level)
    requires Merging(base, b, added, a, deleted, out) && a < |added| && LevelSorted(added)
    requires b < |base| ==> BySmallest(added[a], base[b]) && LevelSorted(base)
    requires r == (if added[a].number in deleted then out else out + [added[a]]) && LevelSorted(r)
    ensures Merging(base, b, added, a + 1, deleted, r)
  {
    assert added[..a+1] == added[..a] + [added[a]];
    forall j | b <= j < |base| ensures BySmallest(added[a], base[j]) {
      if j > b { assert BySmallest(base[b], base[j]); }
    }
  }

  /** SaveTo for one level: merge the base files with the added ones and drop the deleted ones. */
  method SaveLevel(level: nat, base: Level, added: Level, deleted: set<nat>) returns (out: Level)
    requires MergeInputs(level, base, added, deleted)
    ensures LevelSorted(out)
    ensures forall f :: f in out <==> Kept(base, added, deleted, f)
  {
    hide LevelSorted, KeptApart, BySmallest;
    out := [];
    assert Merging(base, 0, added, 0, deleted, out) by { StartMerging(base, added, deleted); }
    var b := 0;
    for a := 0 to |added|
      invariant b <= |base| && Merging(base, b, added, a, deleted, out)
    {
      // All base files up to the upper bound of the added one
      while b < |base| && !BySmallest(added[a], base[b])
        invariant b <= |base| && Merging(base, b, added, a, deleted, out)
      {
        assert BySmallest(base[b], added[a]) by {
          assert base[b] in base && added[a] in added;
          BySmallestTotal(base[b], added[a]);
        }
        NextApart(level, base, b, added, a, deleted, out, base[b]);
        var r := MaybeAddFile(level, out, base[b], deleted);
        TakeBase(base, b, added, a, deleted, out, r);
        out := r;
        b := b + 1;
      }
      NextApart(level, base, b, added, a, deleted, out, added[a]);
      var r := MaybeAddFile(level, out, added[a], deleted);
      TakeAdded(base, b, added, a, deleted, out, r);
      out := r;
    }
    // Remaining base files
    while b < |base|
      invariant b <= |base| && Merging(base, b, added, |added|, deleted, out)
    {
      NextApart(level, base, b, added, |added|, deleted, out, base[b]);
      var r := MaybeAddFile(level, out, base[b], deleted);
      TakeBase(base, b, added, |added|, deleted, out, r);
      out := r;
      b := b + 1;
    }
    assert base[..b] == base && added[..|added|] == added;
  }

  lemma StartMerging(base: Level, added: Level, deleted: set<nat>)
    ensures Merging(base, 0, added, 0, deleted, [])
  {
  }

  lemma BySmallestTotal(f: File, g: File)
    requires f.number != g.number
    ensures BySmallest(f, g) || BySmallest(g, f)
  {
  }

  /** The next file of the merge meets MaybeAddFile's requirements. */
  lemma NextApart(level: nat, base: Level, b: nat, added: Level, a: nat, deleted: set<nat>, out: Level, f: File)
    requires MergeInputs(level, base, added, deleted) && Merging(base, b, added, a, deleted, out)
    requires (b < |base| && f == base[b]) || (a < |added| && f == added[a])
    ensures WellFormed(f) && AllWellFormed(out)
    ensures forall g :: g in out ==> BySmallest(g, f)
    ensures level > 0 && f.number !in deleted ==> forall g :: g in out ==> Apart(g, f)
  {
    assert f in base || f in added;
    forall g | g in out ensures WellFormed(g) && (g in base || g in added) && g.number !in deleted {
      assert Kept(base[..b], added[..a], deleted, g);
    }
    if level > 0 && f.number !in deleted {
      forall g | g in out ensures Apart(g, f) {
        assert Kept(base, added, deleted, g) && Kept(base, added, deleted, f);
      }
    }
  }

  const NO_NUMBERS: seq<set<nat>> := [{}, {}, {}, {}, {}, {}, {}]
  const NO_FILES: seq<Level> := [[], [], [], [], [], [], []]

  class Builder {
    const base: Version
    var deleted: seq<set<nat>>
    var added: seq<Level>

    ghost predicate Valid()
      reads this
    {
      && |base| == |deleted| == |added| == NUM_LEVELS
      && forall l :: 0 <= l < NUM_LEVELS ==> LevelSorted(base[l]) && LevelSorted(added[l])
    }

    constructor (v: Version)
      requires |v| == NUM_LEVELS && forall l :: 0 <= l < NUM_LEVELS ==> LevelSorted(v[l])
      ensures Valid() && base == v && added == NO_FILES && deleted == NO_NUMBERS
    {
      base := v;
      deleted := NO_NUMBERS;
      added := NO_FILES;
    }

    /** Apply: deletions first, then additions (which cancel a deletion of the same number). */
    method Apply(edit: VersionEdit)
      requires Valid() && EditInRange(edit)
      modifies this
      ensures Valid()
      ensures AfterApply(old(deleted), old(added), edit, deleted, added)
    {
      var todo := edit.deletedFiles;
      while todo != {}
        invariant todo <= edit.deletedFiles && Valid() && added == old(added)
        invariant forall l, n :: 0 <= l < NUM_LEVELS ==>
                    (n in deleted[l] <==>
                       n in old(deleted[l]) || LevelNumber(l, n) in edit.deletedFiles - todo)
        decreases todo
      {
        var d :| d in todo;
        deleted := deleted[d.level := deleted[d.level] + {d.number}];
        todo := todo - {d};
      }
      for i := 0 to |edit.newFiles|
        invariant Valid()
        invariant forall l, n :: 0 <= l < NUM_LEVELS ==>
                    (n in deleted[l] <==>
                       (n in old(deleted[l]) || LevelNumber(l, n) in edit.deletedFiles) &&
                       !exists f :: LevelFile(l, f) in edit.newFiles[..i] && f.number == n)
        invariant forall l, f :: 0 <= l < NUM_LEVELS && f in added[l] ==>
                    f in old(added[l]) || LevelFile(l, f) in edit.newFiles[..i]
        invariant forall l, f :: 0 <= l < NUM_LEVELS && f in old(added[l]) ==> f in added[l]
        invariant forall l, f :: 0 <= l < NUM_LEVELS && LevelFile(l, f) in edit.newFiles[..i] ==>
                    OnlyWithItsNumber(old(added[l]), edit, l, f) ==> f in added[l]
      {
        var n := edit.newFiles[i];
        assert edit.newFiles[..i+1] == edit.newFiles[..i] + [n];
        InsertKeepsSorted(added[n.level], n.file);
        deleted := deleted[n.level := deleted[n.level] - {n.file.number}];
        added := added[n.level := InsertBySmallest(added[n.level], n.file)];
      }
      assert edit.newFiles[..|edit.newFiles|] == edit.newFiles;
    }

    method SaveTo() returns (v: Version)
      requires Valid()
      requires forall l :: 0 <= l < NUM_LEVELS ==> MergeInputs(l, base[l], added[l], deleted[l])
      ensures |v| == NUM_LEVELS
      ensures forall l :: 0 <= l < NUM_LEVELS ==> LevelSorted(v[l]) && forall f :: f in v[l] <==> Kept(base[l], added[l], deleted[l], f)
    {
      v := [];
      for level := 0 to NUM_LEVELS
        invariant |v| == level
        invariant forall l :: 0 <= l < level ==> LevelSorted(v[l]) && forall f :: f in v[l] <==> Kept(base[l], added[l], deleted[l], f)
      {
        var files := SaveLevel(level, base[level], added[level], deleted[level]);
        v := v + [files];
      }
    }
  }
}
