/** The merging iterator over sorted children (leveldb/table/merger.cc).

    A child iterator is a run and a position in it; the length of the run is its one invalid
    position. The class is proved to be a cursor over the sorted merge of its children, in both
    directions and across changes of direction. */
module Merger {
  import opened Runs

  datatype Direction = Forward | Reverse

  function ChildLast(run: Run): nat { if run == [] then 0 else |run| - 1 }

  function ChildPrev(run: Run, p: nat): nat
    requires p < |run|
  {
    if p == 0 then |run| else p - 1
  }

  /** The last position whose key is at or before `key`; the invalid position if there is none. */
  function UpperPrev(run: Run, key: InternalKey): nat {
    if run == [] then 0
    else if !Less(key, run[|run|-1].key) then |run| - 1
    else
      var q := UpperPrev(run[..|run|-1], key);
      if q == |run| - 1 then |run| else q
  }

  lemma {:induction false} UpperPrevUnique(run: Run, key: InternalKey, p: nat)
    requires Sorted(run) && p <= |run|
    requires p < |run| ==> !Less(key, run[p].key) && (p + 1 < |run| ==> Less(key, run[p+1].key))
    requires p == |run| > 0 ==> Less(key, run[0].key)
    ensures UpperPrev(run, key) == p
  {
    if run != [] {
      var n := |run| - 1;
      if p < n || p == |run| {
        assert Less(key, run[n].key);
        UpperPrevUnique(run[..n], key, if p == |run| then n else p);
      }
    }
  }

  lemma {:induction false} LowerBoundUnique(run: Run, key: InternalKey, n: nat)
    requires Sorted(run) && n <= |run|
    requires n > 0 ==> Less(run[n-1].key, key)
    requires n < |run| ==> !Less(run[n].key, key)
    ensures LowerBound(run, key) == n
  {
    var m := LowerBound(run, key);
    assert m >= n;
  }

  /** Where a child stands when the merged cursor is at `key` and moves in direction `d`. */
  function ChildAt(run: Run, key: InternalKey, d: Direction): nat {
    if d == Forward then LowerBound(run, key) else UpperPrev(run, key)
  }

  /** What ties the children to their merge. */
  ghost predicate IsMerge(children: seq<Run>, merged: Run) {
    && Sorted(merged)
    && (forall i :: 0 <= i < |children| ==> Sorted(children[i]))
    && Distinct(children)
    && (forall e :: e in merged <==> InSome(children, e))
  }

  /** The positions of the children when the merged cursor is at `pos`. */
  ghost predicate Positioned(children: seq<Run>, merged: Run, at: seq<nat>, pos: nat, d: Direction) {
    && |at| == |children|
    && pos <= |merged|
    && forall i :: 0 <= i < |children| ==>
         at[i] == if pos < |merged| then ChildAt(children[i], merged[pos].key, d) else |children[i]|
  }

  lemma OrderInRun(run: Run, i: nat, j: nat)
    requires Sorted(run) && i < |run| && j < |run|
    ensures i < j <==> Less(run[i].key, run[j].key)
  {
    if j < i { assert Less(run[j].key, run[i].key); }
  }

  /** Every entry of a child has a place in the merge. */
  lemma PlaceInMerge(children: seq<Run>, merged: Run, i: nat, j: nat) returns (q: nat)
    requires IsMerge(children, merged) && i < |children| && j < |children[i]|
    ensures q < |merged| && merged[q] == children[i][j]
  {
    assert children[i][j] in children[i];
    assert InSome(children, children[i][j]);
    q :| 0 <= q < |merged| && merged[q] == children[i][j];
  }

  /** Every entry of the merge has a place in a child. */
  lemma PlaceInChild(children: seq<Run>, merged: Run, q: nat) returns (i: nat, j: nat)
    requires IsMerge(children, merged) && q < |merged|
    ensures i < |children| && j < |children[i]| && merged[q] == children[i][j]
  {
    assert InSome(children, merged[q]);
    i :| 0 <= i < |children| && merged[q] in children[i];
    j :| 0 <= j < |children[i]| && merged[q] == children[i][j];
  }

  /** A child standing between the entries before `pos` and those from `pos` on is at LowerBound. */
  lemma ForwardPlace(children: seq<Run>, merged: Run, i: nat, n: nat, pos: nat)
    requires IsMerge(children, merged) && i < |children| && n <= |children[i]| && pos <= |merged|
    requires n > 0 ==> exists q :: 0 <= q < pos && merged[q] == children[i][n-1]
    requires n < |children[i]| ==> exists q :: pos <= q < |merged| && merged[q] == children[i][n]
    ensures n == if pos < |merged| then LowerBound(children[i], merged[pos].key) else |children[i]|
  {
    if pos < |merged| {
      if n > 0 { var q :| 0 <= q < pos && merged[q] == children[i][n-1]; }
      if n < |children[i]| {
        var q :| pos <= q < |merged| && merged[q] == children[i][n];
        if q > pos { assert Less(merged[pos].key, merged[q].key); }
      }
      LowerBoundUnique(children[i], merged[pos].key, n);
    }
  }

  /** The mirror image: the entries up to `pos` and those after it. */
  lemma ReversePlace(children: seq<Run>, merged: Run, i: nat, p: nat, pos: nat)
    requires IsMerge(children, merged) && i < |children| && p <= |children[i]| && pos < |merged|
    requires p < |children[i]| ==> exists q :: 0 <= q <= pos && merged[q] == children[i][p]
    requires p + 1 < |children[i]| ==> exists q :: pos < q < |merged| && merged[q] == children[i][p+1]
    requires p == |children[i]| > 0 ==> exists q :: pos < q < |merged| && merged[q] == children[i][0]
    ensures p == UpperPrev(children[i], merged[pos].key)
  {
    if p < |children[i]| {
      var q :| 0 <= q <= pos && merged[q] == children[i][p];
      if q < pos { assert Less(merged[q].key, merged[pos].key); }
    }
    UpperPrevUnique(children[i], merged[pos].key, p);
  }

  /** After Seek(target) on every child, the merged cursor is at the first entry >= target. */
  lemma SeekPlace(children: seq<Run>, merged: Run, target: InternalKey, i: nat)
    requires IsMerge(children, merged) && i < |children|
    ensures var pos := LowerBound(merged, target);
      LowerBound(children[i], target) ==
        if pos < |merged| then LowerBound(children[i], merged[pos].key) else |children[i]|
  {
    var pos, n := LowerBound(merged, target), LowerBound(children[i], target);
    if n > 0 {
      var q := PlaceInMerge(children, merged, i, n-1);
      assert q < pos;
    }
    if n < |children[i]| {
      var q := PlaceInMerge(children, merged, i, n);
    }
    ForwardPlace(children, merged, i, n, pos);
  }

  /** The child that supplies the current entry stands at it, whatever the direction. */
  lemma CurrentPlace(children: seq<Run>, merged: Run, i: nat, j: nat, pos: nat, d: Direction)
    requires IsMerge(children, merged) && i < |children| && j < |children[i]| && pos < |merged|
    requires merged[pos] == children[i][j]
    ensures ChildAt(children[i], merged[pos].key, d) == j
  {
    LowerBoundUnique(children[i], merged[pos].key, j);
    UpperPrevUnique(children[i], merged[pos].key, j);
  }

  /** No other child has the current key. */
  lemma OtherChildren(children: seq<Run>, merged: Run, c: nat, j: nat, pos: nat, i: nat)
    requires IsMerge(children, merged) && c < |children| && j < |children[c]| && pos < |merged|
    requires merged[pos] == children[c][j]
    requires i < |children| && i != c
    ensures forall k :: 0 <= k < |children[i]| ==> children[i][k].key != merged[pos].key
  {
    if i < c { assert NoSharedKey(children[i], children[c]); }
    else { assert NoSharedKey(children[c], children[i]); }
  }

  /** Re-seeking a child that does not hold the key and stepping back if possible. */
  lemma StepBackFromSeek(run: Run, key: InternalKey)
    requires Sorted(run)
    requires forall k :: 0 <= k < |run| ==> run[k].key != key
    ensures var n := LowerBound(run, key);
      UpperPrev(run, key) == if n < |run| then ChildPrev(run, n) else ChildLast(run)
  {
    var n := LowerBound(run, key);
    if n < |run| { assert Less(key, run[n].key); }
    UpperPrevUnique(run, key, if n < |run| then ChildPrev(run, n) else ChildLast(run));
  }

  /** Stepping the current child makes all children stand at the next entry of the merge. */
  lemma Advance(children: seq<Run>, merged: Run, at: seq<nat>, c: nat, pos: nat)
    requires IsMerge(children, merged) && Positioned(children, merged, at, pos, Forward)
    requires pos < |merged| && c < |children| && at[c] < |children[c]|
    requires merged[pos] == children[c][at[c]]
    ensures Positioned(children, merged, at[c := at[c] + 1], pos + 1, Forward)
  {
    var at' := at[c := at[c] + 1];
    forall i | 0 <= i < |children|
      ensures at'[i] == if pos + 1 < |merged| then LowerBound(children[i], merged[pos+1].key)
                        else |children[i]|
    {
      var key, n := merged[pos].key, at'[i];
      if i != c { OtherChildren(children, merged, c, at[c], pos, i); }
      if n > 0 {
        var q := PlaceInMerge(children, merged, i, n-1);
        OrderInRun(merged, pos, q);
      }
      if n < |children[i]| {
        var q := PlaceInMerge(children, merged, i, n);
        if i == c { assert Less(children[c][at[c]].key, children[c][n].key); }
        OrderInRun(merged, q, pos);
        assert q > pos;
      }
      ForwardPlace(children, merged, i, n, pos + 1);
    }
  }

  lemma Retreat(children: seq<Run>, merged: Run, at: seq<nat>, c: nat, pos: nat)
    requires IsMerge(children, merged) && Positioned(children, merged, at, pos, Reverse)
    requires pos < |merged| && c < |children| && at[c] < |children[c]|
    requires merged[pos] == children[c][at[c]]
    ensures Positioned(children, merged, at[c := ChildPrev(children[c], at[c])],
                       if pos == 0 then |merged| else pos - 1, Reverse)
  {
    var at' := at[c := ChildPrev(children[c], at[c])];
    var pos' := if pos == 0 then |merged| else pos - 1;
    forall i | 0 <= i < |children|
      ensures at'[i] == if pos' < |merged| then UpperPrev(children[i], merged[pos'].key)
                        else |children[i]|
    {
      BelowPosition(children, merged, at, c, pos, i);
      if pos' < |merged| { ReversePlace(children, merged, i, at'[i], pos'); }
    }
  }

  /** The child positions just below those of the current entry. */
  lemma BelowPosition(children: seq<Run>, merged: Run, at: seq<nat>, c: nat, pos: nat, i: nat)
    requires IsMerge(children, merged) && Positioned(children, merged, at, pos, Reverse)
    requires pos < |merged| && c < |children| && at[c] < |children[c]|
    requires merged[pos] == children[c][at[c]]
    requires i < |children|
    ensures var p := if i == c then ChildPrev(children[c], at[c]) else at[i];
      && p <= |children[i]|
      && (p < |children[i]| ==> exists q :: 0 <= q < pos && merged[q] == children[i][p])
      && (p + 1 < |children[i]| ==> exists q :: pos <= q < |merged| && merged[q] == children[i][p+1])
      && (p == |children[i]| > 0 ==> exists q :: pos <= q < |merged| && merged[q] == children[i][0])
  {
    var p := if i == c then ChildPrev(children[c], at[c]) else at[i];
    UpperPrevMeaning(children[i], merged[pos].key);
    if i != c { OtherChildren(children, merged, c, at[c], pos, i); }
    if p < |children[i]| {
      var q := PlaceInMerge(children, merged, i, p);
      if i == c { assert Less(children[c][p].key, merged[pos].key); }
      OrderInRun(merged, pos, q);
      assert q < pos;
    }
    if p + 1 < |children[i]| {
      var q := PlaceInMerge(children, merged, i, p + 1);
      if q < pos { assert Less(merged[q].key, merged[pos].key); }
    }
    if p == |children[i]| > 0 {
      var q := PlaceInMerge(children, merged, i, 0);
      if q < pos { assert Less(merged[q].key, merged[pos].key); }
    }
  }

  lemma {:induction false} UpperPrevMeaning(run: Run, key: InternalKey)
    requires Sorted(run)
    ensures var p := UpperPrev(run, key);
      && p <= |run|
      && (p < |run| ==> !Less(key, run[p].key))
      && (p + 1 < |run| ==> Less(key, run[p+1].key))
      && (p == |run| > 0 ==> Less(key, run[0].key))
  {
    if run != [] && Less(key, run[|run|-1].key) {
      UpperPrevMeaning(run[..|run|-1], key);
    }
  }

  /** With the children positioned, the smallest of them (largest, in reverse) is the merge's entry. */
  lemma ExtremeIsCurrent(children: seq<Run>, merged: Run, at: seq<nat>, pos: nat, d: Direction, c: int)
    requires IsMerge(children, merged) && Positioned(children, merged, at, pos, d)
    requires -1 <= c < |children|
    requires c == -1 ==> forall i :: 0 <= i < |children| ==> at[i] >= |children[i]|
    requires c >= 0 ==> at[c] < |children[c]|
    requires c >= 0 ==> forall i :: 0 <= i < |children| && at[i] < |children[i]| ==>
               !(if d == Forward then Less(children[i][at[i]].key, children[c][at[c]].key)
                 else Less(children[c][at[c]].key, children[i][at[i]].key))
    ensures if c == -1 then pos == |merged| else pos < |merged| && children[c][at[c]] == merged[pos]
  {
    if pos < |merged| {
      var i, j := PlaceInChild(children, merged, pos);
      CurrentPlace(children, merged, i, j, pos, d);
      assert at[i] == j;
      assert c != -1;
      var q := PlaceInMerge(children, merged, c, at[c]);
      UpperPrevMeaning(children[c], merged[pos].key);
      OrderInRun(merged, q, pos);
      OrderInRun(merged, pos, q);
    }
  }

  class MergingIterator {
    const children: seq<Run>
    var at: seq<nat>
    var current: int        // index of the current child, -1 for none
    var direction: Direction

    // The abstract cursor: the sorted merge of the children and a position in it
    // (|merged| when the iterator is not valid).
    ghost const merged: Run
    ghost var pos: nat

    ghost predicate Valid()
      reads this
    {
      && Sorted(merged)
      && IsMerge(children, merged)
      && pos <= |merged| && |at| == |children|
      && Positioned(children, merged, at, pos, direction)
      && CurrentAtPos()
    }

    ghost predicate CurrentAtPos()
      requires |at| == |children|
      reads this
    {
      if current == -1 then pos == |merged|
      else
        && 0 <= current < |children| && at[current] < |children[current]|
        && pos < |merged| && children[current][at[current]] == merged[pos]
    }

    constructor (runs: seq<Run>)
      requires forall i :: 0 <= i < |runs| ==> Sorted(runs[i])
      requires Distinct(runs)
      ensures Valid() && children == runs && merged == MergeAll(runs) && pos == |merged|
    {
      children := runs;
      at := seq(|runs|, i requires 0 <= i < |runs| => |runs[i]|);
      current := -1;
      direction := Forward;
      merged := MergeAll(runs);
      pos := |MergeAll(runs)|;
      new;
      MergeAllSorted(runs);
      forall e ensures e in merged <==> InSome(children, e) {
        MergeAllElements(runs, e);
      }
    }

    predicate IsValid()
      requires Valid()
      reads this
      ensures pos <= |merged| && (IsValid() <==> pos < |merged|)
    {
      current != -1
    }

    function Current(): (e: Entry)
      requires Valid() && IsValid()
      reads this
      ensures pos < |merged| && e == merged[pos]
    {
      children[current][at[current]]
    }

    method SeekToFirst()
      requires Valid()
      modifies this
      ensures Valid() && direction == Forward && pos == 0 <= |merged|
    {
      at := seq(|children|, i => 0);
      pos := 0;
      forall i | 0 <= i < |children|
        ensures at[i] == if pos < |merged| then LowerBound(children[i], merged[pos].key) else |children[i]|
      {
        if children[i] != [] { var q := PlaceInMerge(children, merged, i, 0); }
        ForwardPlace(children, merged, i, 0, 0);
      }
      FindSmallest();
      direction := Forward;
    }

    method SeekToLast()
      requires Valid()
      modifies this
      ensures Valid() && direction == Reverse && pos == ChildLast(merged)
    {
      at := seq(|children|, i requires 0 <= i < |children| => ChildLast(children[i]));
      pos := ChildLast(merged);
      forall i | 0 <= i < |children|
        ensures at[i] == if pos < |merged| then UpperPrev(children[i], merged[pos].key) else |children[i]|
      {
        if children[i] != [] {
          var q := PlaceInMerge(children, merged, i, at[i]);
          ReversePlace(children, merged, i, at[i], pos);
        }
      }
      FindLargest();
      direction := Reverse;
    }

    method Seek(target: InternalKey)
      requires Valid()
      modifies this
      ensures Valid() && direction == Forward && pos == LowerBound(merged, target)
    {
      at := seq(|children|, i requires 0 <= i < |children| => LowerBound(children[i], target));
      pos := LowerBound(merged, target);
      forall i | 0 <= i < |children|
        ensures at[i] == if pos < |merged| then LowerBound(children[i], merged[pos].key) else |children[i]|
      {
        SeekPlace(children, merged, target, i);
      }
      FindSmallest();
      direction := Forward;
    }

    method Next()
      requires Valid() && IsValid()
      modifies this
      ensures Valid() && direction == Forward && pos == old(pos) + 1
    {
      hide IsMerge, Positioned, Sorted;
      if direction != Forward {
        RepositionForward();
        direction := Forward;
      }
      Advance(children, merged, at, current, pos);
      at := at[current := at[current] + 1];
      pos := pos + 1;
      FindSmallest();
    }

    method Prev()
      requires Valid() && IsValid()
      modifies this
      ensures Valid() && direction == Reverse
      ensures pos == if old(pos) == 0 then |merged| else old(pos) - 1
    {
      hide IsMerge, Positioned, Sorted;
      if direction != Reverse {
        RepositionReverse();
        direction := Reverse;
      }
      Retreat(children, merged, at, current, pos);
      at := at[current := ChildPrev(children[current], at[current])];
      pos := if pos == 0 then |merged| else pos - 1;
      FindLargest();
    }

    /** Change of direction in Next: position the other children after the current key. */
    method RepositionForward()
      requires Valid() && IsValid()
      modifies this`at
      ensures Positioned(children, merged, at, pos, Forward) && CurrentAtPos()
    {
      var key, was := Current().key, at;
      for i := 0 to |children|
        invariant |at| == |children| && at[current] == was[current]
        invariant forall j :: 0 <= j < i ==> at[j] == LowerBound(children[j], key)
      {
        if i != current {
          OtherChildren(children, merged, current, was[current], pos, i);
          var p := LowerBound(children[i], key);
          if p < |children[i]| && children[i][p].key == key {
            p := p + 1;
          }
          at := at[i := p];
        } else {
          CurrentPlace(children, merged, current, was[current], pos, Forward);
        }
      }
    }

    /** Change of direction in Prev: position the other children before the current key. */
    method RepositionReverse()
      requires Valid() && IsValid()
      modifies this`at
      ensures Positioned(children, merged, at, pos, Reverse) && CurrentAtPos()
    {
      var key, was := Current().key, at;
      for i := 0 to |children|
        invariant |at| == |children| && at[current] == was[current]
        invariant forall j :: 0 <= j < i ==> at[j] == UpperPrev(children[j], key)
      {
        if i != current {
          OtherChildren(children, merged, current, was[current], pos, i);
          StepBackFromSeek(children[i], key);
          var p := LowerBound(children[i], key);
          if p < |children[i]| {
            // First entry >= key: step back one
            p := ChildPrev(children[i], p);
          } else {
            // No entry >= key: last entry
            p := ChildLast(children[i]);
          }
          at := at[i := p];
        } else {
          CurrentPlace(children, merged, current, was[current], pos, Reverse);
        }
      }
    }

    method FindSmallest()
      requires IsMerge(children, merged) && Positioned(children, merged, at, pos, Forward)
      modifies this`current
      ensures CurrentAtPos()
    {
      var smallest := -1;
      for i := 0 to |children|
        invariant -1 <= smallest < i
        invariant smallest == -1 ==> forall j :: 0 <= j < i ==> at[j] >= |children[j]|
        invariant smallest >= 0 ==> at[smallest] < |children[smallest]|
        invariant smallest >= 0 ==> forall j :: 0 <= j < i && at[j] < |children[j]| ==>
                    !Less(children[j][at[j]].key, children[smallest][at[smallest]].key)
      {
        if at[i] < |children[i]| {
          if smallest == -1 {
            smallest := i;
          } else if Less(children[i][at[i]].key, children[smallest][at[smallest]].key) {
            smallest := i;
          }
        }
      }
      ExtremeIsCurrent(children, merged, at, pos, Forward, smallest);
      current := smallest;
    }

    method FindLargest()
      requires IsMerge(children, merged) && Positioned(children, merged, at, pos, Reverse)
      modifies this`current
      ensures CurrentAtPos()
    {
      var largest := -1;
      for i := |children| downto 0
        invariant largest == -1 || i <= largest < |children|
        invariant largest == -1 ==> forall j :: i <= j < |children| ==> at[j] >= |children[j]|
        invariant largest >= 0 ==> at[largest] < |children[largest]|
        invariant largest >= 0 ==> forall j :: i <= j < |children| && at[j] < |children[j]| ==>
                    !Less(children[largest][at[largest]].key, children[j][at[j]].key)
      {
        if at[i] < |children[i]| {
          if largest == -1 {
            largest := i;
          } else if Less(children[largest][at[largest]].key, children[i][at[i]].key) {
            largest := i;
          }
        }
      }
      ExtremeIsCurrent(children, merged, at, pos, Reverse, largest);
      current := largest;
    }
  }
}
