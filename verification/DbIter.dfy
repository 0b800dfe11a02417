/** The user-level iterator (leveldb/db/db_iter.cc).

    DbIter turns the internal entries under a merging iterator into a cursor over the user keys
    that are live at one sequence number. `LiveList` is the list it has to walk. */
module DbIter {
  import opened Slices
  import opened Runs
  import opened Merger

  predicate Visible(run: Run, i: nat, s: nat)
    requires i < |run|
  {
    run[i].key.sequence <= s
  }

  /** The newest visible entry of its user key. */
  predicate First(run: Run, i: nat, s: nat)
    requires i < |run|
  {
    && Visible(run, i, s)
    && forall j :: 0 <= j < i && run[j].key.user == run[i].key.user ==> !Visible(run, j, s)
  }

  predicate Live(run: Run, i: nat, s: nat)
    requires i < |run|
  {
    First(run, i, s) && run[i].key.kind == Value
  }

  /** The live entries among the first n, in order. */
  function LiveUpTo(run: Run, n: nat, s: nat): seq<(UserKey, Bytes)>
    requires n <= |run|
  {
    if n == 0 then []
    else LiveUpTo(run, n - 1, s) +
         (if Live(run, n - 1, s) then [(run[n-1].key.user, run[n-1].value)] else [])
  }

  function LiveList(run: Run, s: nat): seq<(UserKey, Bytes)> { LiveUpTo(run, |run|, s) }

  // ---------------------------------------------------------------- what LiveList is

  /** Walking past positions that are not live does not move the cursor. */
  lemma {:induction false} NoLiveBetween(run: Run, i: nat, j: nat, s: nat)
    requires i <= j <= |run|
    requires forall k :: i <= k < j ==> !Live(run, k, s)
    ensures LiveUpTo(run, i, s) == LiveUpTo(run, j, s)
  {
    if i < j { NoLiveBetween(run, i, j - 1, s); }
  }

  lemma {:induction false} LiveUpToIsPrefix(run: Run, i: nat, j: nat, s: nat)
    requires i <= j <= |run|
    ensures LiveUpTo(run, i, s) <= LiveUpTo(run, j, s)
  {
    if i < j { LiveUpToIsPrefix(run, i, j - 1, s); }
  }

  /** The element of the list that belongs to a live position. */
  lemma LiveAt(run: Run, i: nat, s: nat)
    requires i < |run| && Live(run, i, s)
    ensures var n := |LiveUpTo(run, i, s)|;
      && n < |LiveList(run, s)| && |LiveUpTo(run, i + 1, s)| == n + 1
      && LiveList(run, s)[n] == (run[i].key.user, run[i].value)
  {
    LiveUpToIsPrefix(run, i + 1, |run|, s);
  }

  /** Every element of the list comes from a live position. */
  lemma {:induction false} LivePosition(run: Run, n: nat, s: nat, m: nat) returns (i: nat)
    requires n <= |run| && m < |LiveUpTo(run, n, s)|
    ensures i < n && Live(run, i, s) && |LiveUpTo(run, i, s)| == m
    ensures LiveUpTo(run, n, s)[m] == (run[i].key.user, run[i].value)
  {
    if m < |LiveUpTo(run, n - 1, s)| {
      i := LivePosition(run, n - 1, s, m);
    } else {
      i := n - 1;
    }
  }

  /** The list is strictly increasing in the user key. */
  lemma LiveListIncreasing(run: Run, s: nat, a: nat, b: nat)
    requires Sorted(run) && a < b < |LiveList(run, s)|
    ensures LiveList(run, s)[a].0 < LiveList(run, s)[b].0
  {
    var i := LivePosition(run, |run|, s, a);
    var j := LivePosition(run, |run|, s, b);
    if j <= i {
      LiveUpToIsPrefix(run, j, i, s);
      assert false;
    }
    assert Less(run[i].key, run[j].key);
    assert First(run, j, s);
  }

  /** The list holds exactly what point lookups at `s` find. */
  lemma LiveListIsTheView(run: Run, s: nat, user: UserKey, value: Bytes)
    requires Sorted(run)
    ensures (user, value) in LiveList(run, s) <==> RunGet(run, user, s) == Found(value)
  {
    if (user, value) in LiveList(run, s) {
      var m :| 0 <= m < |LiveList(run, s)| && LiveList(run, s)[m] == (user, value);
      var i := LivePosition(run, |run|, s, m);
      LowerBoundOfFirst(run, i, s);
    }
    if RunGet(run, user, s) == Found(value) {
      var i := LowerBound(run, SeekKey(user, s));
      forall j | 0 <= j < i && run[j].key.user == user ensures !Visible(run, j, s) {
        assert Less(run[j].key, SeekKey(user, s));
      }
      assert !Less(run[i].key, SeekKey(user, s));
      assert Live(run, i, s);
      LiveAt(run, i, s);
    }
  }

  lemma LowerBoundOfFirst(run: Run, i: nat, s: nat)
    requires Sorted(run) && i < |run| && First(run, i, s)
    ensures LowerBound(run, SeekKey(run[i].key.user, s)) == i
  {
    var target := SeekKey(run[i].key.user, s);
    if i > 0 {
      assert Less(run[i-1].key, run[i].key);
      assert run[i-1].key.user == run[i].key.user ==> !Visible(run, i - 1, s);
    }
    LowerBoundUnique(run, target, i);
  }

  /** Entries before the seek position belong to smaller user keys or are not visible. */
  lemma BeforeSeek(run: Run, target: UserKey, s: nat, j: nat)
    requires Sorted(run) && j < LowerBound(run, SeekKey(target, s))
    ensures run[j].key.user < target || (run[j].key.user == target && !Visible(run, j, s))
  {
    assert Less(run[j].key, SeekKey(target, s));
  }

  /** Where Seek(target) has to end: the number of live keys below target. */
  lemma SeekIndex(run: Run, target: UserKey, s: nat, m: nat)
    requires Sorted(run) && m < |LiveList(run, s)|
    ensures var p := LowerBound(run, SeekKey(target, s));
      m < |LiveUpTo(run, p, s)| <==> LiveList(run, s)[m].0 < target
  {
    var p := LowerBound(run, SeekKey(target, s));
    var i := LivePosition(run, |run|, s, m);
    if i < p {
      BeforeSeek(run, target, s, i);
      LiveUpToIsPrefix(run, i + 1, p, s);
      LiveAt(run, i, s);
    } else {
      LiveUpToIsPrefix(run, p, i, s);
      assert p < |run| && !Less(run[p].key, SeekKey(target, s));
      if p < i { assert Less(run[p].key, run[i].key); }
    }
  }

  // ---------------------------------------------------------------- the iterator

  /** The forward scan looks for the first live position at or after `from` and stands at `p`.
      A key is skipped when the scan is skipping and the key is at most `skip`. */
  ghost predicate ScanState(run: Run, p: nat, from: nat, skipping: bool, skip: UserKey, s: nat) {
    && from <= |run|
    // nothing live has been passed
    && (forall i :: from <= i < p && i < |run| ==> !Live(run, i, s))
    // the only visible position before `from` is a value that is skipped: the current entry
    && (forall i {:trigger Visible(run, i, s)} :: p <= i < from && Visible(run, i, s) ==>
          i + 1 == from && run[i].key.kind == Value && skipping && run[i].key.user <= skip)
    // skipped positions from `from` on are not live
    && (forall i {:trigger First(run, i, s)} :: p <= i && from <= i < |run| ==>
          skipping && run[i].key.user <= skip ==> !First(run, i, s))
    // the others have no visible position of their key behind the scan
    && (forall i, j {:trigger Visible(run, i, s), Visible(run, j, s)} :: 0 <= j < p <= i < |run| ==>
          Visible(run, i, s) && Visible(run, j, s) && run[j].key.user == run[i].key.user ==>
          skipping && run[i].key.user <= skip)
  }

  class DbIter {
    const iter: MergingIterator
    const sequence: nat
    var savedKey: UserKey     // == current key when direction == Reverse
    var savedValue: Bytes     // == current value when direction == Reverse
    var direction: Direction
    var valid: bool

    ghost var cur: nat        // position of the current entry in iter.merged

    /** Position of the internal iterator, -1 when it is not valid. */
    ghost function InternalPos(): int
      reads this, iter
    {
      if iter.pos < |iter.merged| then iter.pos else -1
    }

    ghost predicate Valid()
      reads this, iter
    {
      && iter.Valid()
      && (valid ==> cur < |iter.merged| && Live(iter.merged, cur, sequence))
      && (!valid ==> cur == |iter.merged|)
      && (valid && direction == Forward ==> iter.pos == cur)
      && (valid && direction == Reverse ==>
            && savedKey == iter.merged[cur].key.user && savedValue == iter.merged[cur].value
            && InternalPos() < cur
            && forall j :: InternalPos() < j < cur ==> !Visible(iter.merged, j, sequence))
    }

    /** The list of live user keys that the iterator walks. */
    ghost function Entries(): seq<(UserKey, Bytes)>
      reads this, iter
    {
      LiveList(iter.merged, sequence)
    }

    /** The place in Entries(); |Entries()| when the iterator is not valid. */
    ghost function Index(): (i: nat)
      requires Valid()
      reads this, iter
      ensures valid <==> i < |Entries()|
    {
      if valid then
        LiveAt(iter.merged, cur, sequence);
        |LiveUpTo(iter.merged, cur, sequence)|
      else |Entries()|
    }

    constructor (internal: MergingIterator, s: nat)
      requires internal.Valid()
      ensures Valid() && !valid && iter == internal && sequence == s
    {
      iter := internal;
      sequence := s;
      savedKey, savedValue := 0.0, [];
      direction := Forward;
      valid := false;
      cur := |internal.merged|;
    }

    function CurrentKey(): UserKey
      requires Valid() && valid
      reads this, iter
      ensures CurrentKey() == Entries()[Index()].0
    {
      LiveAt(iter.merged, cur, sequence);
      if direction == Forward then iter.Current().key.user else savedKey
    }

    function CurrentValue(): Bytes
      requires Valid() && valid
      reads this, iter
      ensures CurrentValue() == Entries()[Index()].1
    {
      LiveAt(iter.merged, cur, sequence);
      if direction == Forward then iter.Current().value else savedValue
    }

    method SeekToFirst()
      requires Valid()
      modifies this, iter
      ensures Valid() && Index() == 0
    {
      direction := Forward;
      savedValue := [];
      iter.SeekToFirst();
      if iter.IsValid() {
        FindNextUserEntry(false, 0);
      } else {
        valid := false;
        cur := |iter.merged|;
      }
    }

    /** To the first live key at or after `target`. */
    method Seek(target: UserKey)
      requires Valid()
      modifies this, iter
      ensures Valid()
      ensures forall m :: 0 <= m < |Entries()| ==> (m < Index() <==> Entries()[m].0 < target)
    {
      direction := Forward;
      savedValue := [];
      savedKey := 0.0;
      iter.Seek(SeekKey(target, sequence));
      ghost var p := iter.pos;
      if iter.IsValid() {
        forall j, i | 0 <= j < p <= i < |iter.merged| && Visible(iter.merged, j, sequence)
          ensures iter.merged[j].key.user != iter.merged[i].key.user
        {
          BeforeSeek(iter.merged, target, sequence, j);
          assert !Less(iter.merged[p].key, SeekKey(target, sequence));
          if p < i { assert Less(iter.merged[p].key, iter.merged[i].key); }
        }
        FindNextUserEntry(false, p);
      } else {
        valid := false;
        cur := |iter.merged|;
      }
      forall m | 0 <= m < |Entries()| ensures m < Index() <==> Entries()[m].0 < target {
        SeekIndex(iter.merged, target, sequence, m);
      }
    }

    method SeekToLast()
      requires Valid()
      modifies this, iter
      ensures Valid() && Index() == if Entries() == [] then 0 else |Entries()| - 1
    {
      direction := Reverse;
      savedValue := [];
      iter.SeekToLast();
      FindPrevUserEntry(|iter.merged|);
    }

    method Next()
      requires Valid() && valid
      modifies this, iter
      ensures Valid() && Index() == old(Index()) + 1
    {
      hide IsMerge, Positioned, LiveUpTo;
      ghost var from := cur + 1;
      LiveAt(iter.merged, cur, sequence);
      if direction == Reverse {
        direction := Forward;
        // The internal iterator is somewhere before the current key's entries: advance it
        if !iter.IsValid() {
          iter.SeekToFirst();
        } else {
          iter.Next();
        }
        assert iter.pos <= cur;
      } else {
        // Skip the current key below
        savedKey := iter.Current().key.user;
      }
      SkipCurrentKey(iter.merged, iter.pos, cur, sequence);
      FindNextUserEntry(true, from);
    }

    method Prev()
      requires Valid() && valid
      modifies this, iter
      ensures Valid()
      ensures Index() == if old(Index()) == 0 then |Entries()| else old(Index()) - 1
    {
      hide IsMerge, Positioned, LiveUpTo;
      ghost var from, n := cur, Index();
      if direction == Forward {
        // Scan backwards until the key changes
        savedKey := iter.Current().key.user;
        while true
          invariant iter.Valid() && iter.pos <= from < |iter.merged|
          invariant Live(iter.merged, from, sequence) && n == |LiveUpTo(iter.merged, from, sequence)|
          invariant iter.merged[from].key.user == savedKey
          invariant forall j :: iter.pos <= j < from ==> iter.merged[j].key.user == savedKey
          invariant direction == Forward
          decreases iter.pos
        {
          ghost var p := iter.pos;
          iter.Prev();
          if !iter.IsValid() {
            valid := false;
            savedKey, savedValue := 0.0, [];
            cur := |iter.merged|;
            NoneBefore(iter.merged, from, sequence);
            return;
          }
          if iter.Current().key.user < savedKey {
            break;
          }
          assert Less(iter.merged[iter.pos].key, iter.merged[from].key);
        }
        direction := Reverse;
      }
      FindPrevUserEntry(from);
    }

    /** Forward scan for the first live position at or after `from`. `savedKey` is the key to skip. */
    method FindNextUserEntry(skip: bool, ghost from: nat)
      requires iter.Valid() && iter.IsValid() && direction == Forward
      requires iter.pos <= from && ScanState(iter.merged, iter.pos, from, skip, savedKey, sequence)
      modifies this, iter
      ensures Valid() && direction == Forward
      ensures Index() == |LiveUpTo(iter.merged, from, sequence)|
    {
      assert Sorted(iter.merged);
      hide MergingIterator.Valid, Sorted, ScanState, First, LiveUpTo;
      var skipping := skip;
      ghost var run := iter.merged;
      while iter.IsValid()
        invariant iter.Valid() && direction == Forward
        invariant ScanState(run, iter.pos, from, skipping, savedKey, sequence)
        decreases |run| - iter.pos
      {
        ghost var p := iter.pos;
        var ikey := iter.Current().key;
        if ikey.sequence <= sequence {
          if ikey.kind == Deletion {
            // Later entries of this key are hidden by the deletion
            ScanDeletion(run, p, from, skipping, savedKey, sequence);
            savedKey := ikey.user;
            skipping := true;
          } else if skipping && ikey.user <= savedKey {
            // Entry hidden
            ScanHidden(run, p, from, skipping, savedKey, sequence);
          } else {
            ScanFound(run, p, from, skipping, savedKey, sequence);
            valid := true;
            savedKey := 0.0;
            cur := p;
            LiveAt(run, p, sequence);
            return;
          }
        } else {
          ScanHidden(run, p, from, skipping, savedKey, sequence);
        }
        iter.Next();
      }
      ScanEnd(run, from, skipping, savedKey, sequence);
      savedKey := 0.0;
      valid := false;
      cur := |run|;
    }

    /** Backward scan for the last live position before `from`. */
    method FindPrevUserEntry(ghost from: nat)
      requires iter.Valid() && direction == Reverse
      requires BackScan(iter.merged, InternalPos(), from, from, Deletion, sequence)
      modifies this, iter
      ensures Valid()
      ensures var n := |LiveUpTo(iter.merged, from, sequence)|;
        Index() == if n == 0 then |Entries()| else n - 1
    {
      ghost var run := iter.merged;
      assert Sorted(iter.merged);
      hide MergingIterator.Valid, Sorted, BackScan, First, LiveUpTo;
      var kind := Deletion;
      ghost var last: nat := from;      // last visible position scanned, `from` if none yet
      while iter.IsValid()
        invariant iter.Valid() && direction == Reverse
        invariant BackScan(run, InternalPos(), last, from, kind, sequence)
        invariant kind == Value ==> savedKey == run[last].key.user && savedValue == run[last].value
        decreases InternalPos() + 1
      {
        ghost var p := InternalPos();
        var ikey := iter.Current().key;
        if ikey.sequence <= sequence {
          if kind != Deletion && ikey.user < savedKey {
            // A visible entry of a smaller key: the saved entry is the current one
            break;
          }
          BackScanTake(run, p, last, from, kind, sequence);
          kind := ikey.kind;
          if kind == Deletion {
            savedKey, savedValue := 0.0, [];
          } else {
            savedKey, savedValue := ikey.user, iter.Current().value;
          }
          last := iter.pos;
        } else {
          BackScanSkip(run, p, last, from, kind, sequence);
        }
        iter.Prev();
        assert InternalPos() == p - 1;
      }
      BackScanDone(run, InternalPos(), last, from, kind, sequence);
      if kind == Deletion {
        valid := false;
        savedKey, savedValue := 0.0, [];
        direction := Forward;
        cur := |run|;
      } else {
        valid := true;
        cur := last;
        LiveAt(run, last, sequence);
      }
    }
  }

  /** Skipping the current key leads to the first live position after it. */
  lemma SkipCurrentKey(run: Run, p: nat, cur: nat, s: nat)
    requires Sorted(run) && p <= cur < |run| && Live(run, cur, s)
    requires forall j :: p <= j < cur ==> !Visible(run, j, s)
    ensures ScanState(run, p, cur + 1, true, run[cur].key.user, s)
  {
    forall i, j | 0 <= i < |run| && 0 <= j < |run| ensures i < j ==> run[i].key.user <= run[j].key.user {
      if i < j { assert Less(run[i].key, run[j].key); }
    }
    HiddenFrom(run, cur, s);
  }

  /** The forward scan moves past a position that is not visible or is skipped. */
  lemma ScanHidden(run: Run, p: nat, from: nat, skipping: bool, skip: UserKey, s: nat)
    requires Sorted(run) && p < |run| && ScanState(run, p, from, skipping, skip, s)
    requires !Visible(run, p, s) || (skipping && run[p].key.user <= skip)
    ensures ScanState(run, p + 1, from, skipping, skip, s)
  {
    if Visible(run, p, s) { HiddenFrom(run, p, s); }
  }

  /** A visible deletion makes the scan skip its key. */
  lemma ScanDeletion(run: Run, p: nat, from: nat, skipping: bool, skip: UserKey, s: nat)
    requires Sorted(run) && p < |run| && ScanState(run, p, from, skipping, skip, s)
    requires Visible(run, p, s) && run[p].key.kind == Deletion
    ensures ScanState(run, p + 1, from, true, run[p].key.user, s)
  {
    HiddenFrom(run, p, s);
  }

  /** A visible value that is not skipped is the position the scan looks for. */
  lemma ScanFound(run: Run, p: nat, from: nat, skipping: bool, skip: UserKey, s: nat)
    requires Sorted(run) && p < |run| && ScanState(run, p, from, skipping, skip, s)
    requires Visible(run, p, s) && run[p].key.kind == Value
    requires !(skipping && run[p].key.user <= skip)
    ensures from <= p && Live(run, p, s)
    ensures |LiveUpTo(run, p, s)| == |LiveUpTo(run, from, s)|
  {
    NoLiveBetween(run, from, p, s);
  }

  lemma ScanEnd(run: Run, from: nat, skipping: bool, skip: UserKey, s: nat)
    requires ScanState(run, |run|, from, skipping, skip, s)
    ensures LiveUpTo(run, from, s) == LiveList(run, s)
  {
    NoLiveBetween(run, from, |run|, s);
  }

  /** A live position whose predecessors all have its key is the first live one. */
  lemma NoneBefore(run: Run, i: nat, s: nat)
    requires i < |run| && Live(run, i, s)
    requires forall j :: 0 <= j < i ==> run[j].key.user == run[i].key.user
    ensures |LiveUpTo(run, i, s)| == 0
  {
    NoLiveBetween(run, 0, i, s);
  }

  /** State of the backward scan: everything after `p` and before `from` has been looked at, `last`
      is the latest visible position seen (`from` if none) and `kind` its type. */
  ghost predicate BackScan(run: Run, p: int, last: nat, from: nat, kind: ValueType, s: nat) {
    && -1 <= p < last <= from <= |run|
    && (forall j :: p < j < last ==> !Visible(run, j, s))
    && (forall j :: last < j < from ==> !Live(run, j, s))
    && (if last == from then kind == Deletion else Visible(run, last, s) && kind == run[last].key.kind)
  }

  lemma BackScanSkip(run: Run, p: nat, last: nat, from: nat, kind: ValueType, s: nat)
    requires BackScan(run, p, last, from, kind, s) && !Visible(run, p, s)
    ensures BackScan(run, p - 1, last, from, kind, s)
  {
  }

  /** A visible position of the same key, or any visible position after a deletion, replaces `last`. */
  lemma BackScanTake(run: Run, p: nat, last: nat, from: nat, kind: ValueType, s: nat)
    requires Sorted(run) && BackScan(run, p, last, from, kind, s) && Visible(run, p, s)
    requires kind != Deletion ==> run[p].key.user >= run[last].key.user
    ensures BackScan(run, p - 1, p, from, run[p].key.kind, s)
  {
    if last < from {
      OrderInRun(run, p, last);
      assert !Live(run, last, s);
    }
  }

  /** When the scan stops, `last` is the last live position before `from`, if there is one. */
  lemma BackScanDone(run: Run, p: int, last: nat, from: nat, kind: ValueType, s: nat)
    requires Sorted(run) && BackScan(run, p, last, from, kind, s)
    requires p == -1 || (kind != Deletion && run[p].key.user < run[last].key.user)
    ensures p < last && forall j :: p < j < last ==> !Visible(run, j, s)
    ensures if kind == Deletion then LiveUpTo(run, from, s) == []
            else last < from && Live(run, last, s) &&
                 |LiveUpTo(run, last, s)| + 1 == |LiveUpTo(run, from, s)|
  {
    if kind == Deletion {
      NoLiveBetween(run, 0, from, s);
    } else {
      forall j | 0 <= j < last && run[j].key.user == run[last].key.user ensures !Visible(run, j, s) {
        if p >= 0 { OrderInRun(run, p, j); }
      }
      NoLiveBetween(run, last + 1, from, s);
    }
  }

  /** A visible position hides all later positions of its key; other later keys are larger. */
  lemma HiddenFrom(run: Run, p: nat, s: nat)
    requires Sorted(run) && p < |run| && Visible(run, p, s)
    ensures forall i :: p < i < |run| ==> run[i].key.user >= run[p].key.user
    ensures forall i :: p < i < |run| && run[i].key.user == run[p].key.user ==> !First(run, i, s)
    ensures forall j :: 0 <= j <= p ==> run[j].key.user <= run[p].key.user
  {
    forall i | p < i < |run| ensures run[i].key.user >= run[p].key.user {
      assert Less(run[p].key, run[i].key);
    }
    forall j | 0 <= j <= p ensures run[j].key.user <= run[p].key.user {
      if j < p { assert Less(run[j].key, run[p].key); }
    }
  }
}
