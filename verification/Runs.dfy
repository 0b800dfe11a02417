/** Internal keys and sorted runs (leveldb/db/dbformat.cc, dbformat.h).

    A run is the contents of one memtable or one table: entries in strictly increasing internal
    key order. */
module Runs {
  import opened Slices

  /** A user key, given by its rank in the user comparator's order (see Slices.RankOrder). */
  type UserKey = real

  const MAX_SEQUENCE: nat := 0xFF_FFFF_FFFF_FFFF

  datatype ValueType = Deletion | Value

  datatype InternalKey = InternalKey(user: UserKey, sequence: nat, kind: ValueType) {
    /** PackSequenceAndType. */
    function Tag(): nat { sequence * 256 + (if kind == Value then 1 else 0) }
  }

  /** InternalKeyComparator: increasing user key, then decreasing tag. */
  predicate Less(a: InternalKey, b: InternalKey) {
    a.user < b.user || (a.user == b.user && a.Tag() > b.Tag())
  }

  /** Where a lookup of `user` at sequence number `s` starts (LookupKey, kValueTypeForSeek). */
  function SeekKey(user: UserKey, s: nat): InternalKey { InternalKey(user, s, Value) }

  datatype Entry = Entry(key: InternalKey, value: Bytes)

  type Run = seq<Entry>

  predicate Sorted(run: Run) {
    forall i, j :: 0 <= i < j < |run| ==> Less(run[i].key, run[j].key)
  }

  /** Iterator::Seek on a run: the first position whose key is at or after `target`. */
  function LowerBound(run: Run, target: InternalKey): (n: nat)
    ensures n <= |run|
    ensures forall i :: 0 <= i < n ==> Less(run[i].key, target)
    ensures n < |run| ==> !Less(run[n].key, target)
  {
    if run == [] || !Less(run[0].key, target) then 0
    else 1 + LowerBound(run[1..], target)
  }

  // ---------------------------------------------------------------- lookups in one run

  datatype Lookup = NotFound | Deleted | Found(value: Bytes)

  /** MemTable::Get and, through SaveValue, Table::InternalGet: look at the first entry at or after
      the lookup key and take it if it has the right user key. */
  function RunGet(run: Run, user: UserKey, s: nat): Lookup {
    var i := LowerBound(run, SeekKey(user, s));
    if i == |run| || run[i].key.user != user then NotFound
    else if run[i].key.kind == Value then Found(run[i].value)
    else Deleted
  }

  function Answer(e: Entry): Lookup {
    if e.key.kind == Value then Found(e.value) else Deleted
  }

  /** `e` is the newest entry of the run for `user` that is visible at `s`. */
  ghost predicate IsNewest(run: Run, user: UserKey, s: nat, e: Entry) {
    && e in run && e.key.user == user && e.key.sequence <= s
    && forall x :: x in run && x.key.user == user && x.key.sequence <= s ==> !Less(x.key, e.key)
  }

  /** No entry of the run for `user` is visible at `s`. */
  ghost predicate NoneIn(run: Run, user: UserKey, s: nat) {
    forall x :: x in run && x.key.user == user ==> x.key.sequence > s
  }

  /** What a lookup in a sorted run means: the newest visible entry, if there is one. */
  lemma {:induction false} RunGetFindsNewest(run: Run, user: UserKey, s: nat)
    requires Sorted(run)
    ensures var n := LowerBound(run, SeekKey(user, s));
      if RunGet(run, user, s) == NotFound then NoneIn(run, user, s)
      else n < |run| && IsNewest(run, user, s, run[n]) && RunGet(run, user, s) == Answer(run[n])
  {
    var target := SeekKey(user, s);
    var n := LowerBound(run, target);
    forall x | x in run && x.key.user == user && x.key.sequence <= s
      ensures n < |run| && run[n].key.user == user && !Less(x.key, run[n].key)
    {
      var i :| 0 <= i < |run| && run[i] == x;
      assert !Less(x.key, target);
      assert i >= n;
      if i > n { assert Less(run[n].key, run[i].key); }
    }
  }

  /** The newest visible entry is what a lookup returns. */
  lemma NewestIsFound(run: Run, user: UserKey, s: nat, e: Entry)
    requires Sorted(run) && IsNewest(run, user, s, e)
    ensures RunGet(run, user, s) == Answer(e)
  {
    RunGetFindsNewest(run, user, s);
    var n := LowerBound(run, SeekKey(user, s));
    var i :| 0 <= i < |run| && run[i] == e;
    if n < i { assert Less(run[n].key, run[i].key); }
  }

  // ---------------------------------------------------------------- merging runs

  /** No internal key occurs in two of the runs. */
  predicate Distinct(runs: seq<Run>) {
    forall i, j :: 0 <= i < j < |runs| ==> NoSharedKey(runs[i], runs[j])
  }

  predicate NoSharedKey(a: Run, b: Run) {
    forall i, j :: 0 <= i < |a| && 0 <= j < |b| ==> a[i].key != b[j].key
  }

  ghost predicate InSome(runs: seq<Run>, e: Entry) {
    exists i :: 0 <= i < |runs| && e in runs[i]
  }

  /** The sorted merge of sorted runs: what a merging iterator has to enumerate. */
  function Merge2(a: Run, b: Run): (m: Run)
    ensures |m| == |a| + |b|
    ensures forall e :: e in m <==> e in a || e in b
  {
    if a == [] then b
    else if b == [] then a
    else if Less(a[0].key, b[0].key) then
      assert a == [a[0]] + a[1..];
      [a[0]] + Merge2(a[1..], b)
    else
      assert b == [b[0]] + b[1..];
      [b[0]] + Merge2(a, b[1..])
  }

  function MergeAll(runs: seq<Run>): Run {
    if runs == [] then [] else Merge2(runs[0], MergeAll(runs[1..]))
  }

  lemma {:induction false} Merge2Sorted(a: Run, b: Run)
    requires Sorted(a) && Sorted(b) && NoSharedKey(a, b)
    ensures Sorted(Merge2(a, b))
  {
    var m := Merge2(a, b);
    if a != [] && b != [] {
      var rest := m[1..];
      if Less(a[0].key, b[0].key) {
        Merge2Sorted(a[1..], b);
        assert rest == Merge2(a[1..], b);
      } else {
        assert a[0].key != b[0].key;
        Merge2Sorted(a, b[1..]);
        assert rest == Merge2(a, b[1..]);
      }
      forall i | 0 < i < |m| ensures Less(m[0].key, m[i].key) {
        assert m[i] == rest[i-1];
        assert rest[i-1] in rest;
      }
      forall i, j | 0 <= i < j < |m| ensures Less(m[i].key, m[j].key) {
        if i > 0 { assert m[i] == rest[i-1] && m[j] == rest[j-1]; }
      }
    }
  }

  lemma {:induction false} MergeAllElements(runs: seq<Run>, e: Entry)
    ensures e in MergeAll(runs) <==> InSome(runs, e)
  {
    if runs != [] {
      MergeAllElements(runs[1..], e);
      if e in runs[0] { assert InSome(runs, e); }
      if InSome(runs[1..], e) {
        var i :| 0 <= i < |runs[1..]| && e in runs[1..][i];
        assert e in runs[i+1];
      }
      if InSome(runs, e) && e !in runs[0] {
        var i :| 0 <= i < |runs| && e in runs[i];
        assert e in runs[1..][i-1];
      }
    }
  }

  lemma {:induction false} MergeAllSorted(runs: seq<Run>)
    requires forall i :: 0 <= i < |runs| ==> Sorted(runs[i])
    requires Distinct(runs)
    ensures Sorted(MergeAll(runs))
  {
    if runs != [] {
      MergeAllSorted(runs[1..]);
      var rest := MergeAll(runs[1..]);
      forall i, j | 0 <= i < |runs[0]| && 0 <= j < |rest| ensures runs[0][i].key != rest[j].key {
        MergeAllElements(runs[1..], rest[j]);
        var k :| 0 <= k < |runs[1..]| && rest[j] in runs[1..][k];
        assert NoSharedKey(runs[0], runs[k+1]);
      }
      Merge2Sorted(runs[0], rest);
    }
  }
}
