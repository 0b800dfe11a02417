/** The two-level iterator (leveldb/table/two_level_iterator.cc): a cursor over the entries of several
    blocks (or files), any of which may be empty, that opens one block at a time. */
module TwoLevel {
  import opened Options
  import opened Runs
  import opened Tables

  /** The separators divide the blocks: no entry of block i is after separator i, all later ones are. */
  ghost predicate Divides(seps: seq<InternalKey>, blocks: seq<Run>) {
    && |seps| == |blocks|
    && (forall i, e :: 0 <= i < |blocks| && e in blocks[i] ==> !Less(seps[i], e.key))
    && (forall i, j, e :: 0 <= i < j < |blocks| && e in blocks[j] ==> Less(seps[i], e.key))
  }

  function SeekSeparator(seps: seq<InternalKey>, key: InternalKey): (i: nat)
    ensures i <= |seps|
    ensures forall j :: 0 <= j < i ==> Less(seps[j], key)
    ensures i < |seps| ==> !Less(seps[i], key)
  {
    if seps == [] || !Less(seps[0], key) then 0 else 1 + SeekSeparator(seps[1..], key)
  }

  class TwoLevelIterator {
    const blocks: seq<Run>
    const seps: seq<InternalKey>
    var index: nat                // index_iter_; |blocks| when it is not valid
    var data: Option<nat>         // the block data_iter_ is for; None when there is no data iterator
    var at: nat                   // where data_iter_ stands; the block's length when it is not valid

    ghost predicate Valid()
      reads this
    {
      && index <= |blocks| && (data.Some? ==> data.value < |blocks| && at <= |blocks[data.value]|)
      && (IsValid() ==> data.value == index)
      && (!IsValid() ==> index == |blocks|)
    }

    predicate IsValid()
      reads this
    {
      data.Some? && data.value < |blocks| && at < |blocks[data.value]|
    }

    /** Where it stands in the concatenation of the blocks; the length when it is not valid. */
    ghost function Position(): nat
      reads this
    {
      if IsValid() then Start(blocks, data.value) + at else |Flat(blocks)|
    }

    constructor (blocks: seq<Run>, seps: seq<InternalKey>)
      requires |seps| == |blocks|
      ensures Valid() && !IsValid() && this.blocks == blocks && this.seps == seps
    {
      this.blocks, this.seps := blocks, seps;
      index, data, at := |blocks|, None, 0;
    }

    function Current(): Entry
      requires IsValid()
      reads this
    {
      blocks[data.value][at]
    }

    lemma CurrentIsAtPosition()
      requires Valid() && IsValid()
      ensures Position() < |Flat(blocks)| && Current() == Flat(blocks)[Position()]
    {
      BlockInFlat(blocks, data.value);
      var start, block := Start(blocks, data.value), blocks[data.value];
      assert Flat(blocks)[start..start+|block|][at] == block[at];
    }

    /** InitDataBlock: a data iterator for the block the index names; one that is already there stays. */
    method InitDataBlock()
      requires index <= |blocks|
      modifies this`data, this`at
      ensures index == |blocks| ==> data == None
      ensures index < |blocks| ==> data == Some(index)
      ensures old(data) == Some(index) && index < |blocks| ==> at == old(at)
    {
      if index == |blocks| {
        data := None;
      } else if data == Some(index) {
        // The data iterator is already for this block
      } else {
        data := Some(index);
        at := |blocks[index]|;
      }
    }

    /** SkipEmptyDataBlocksForward, from the data iterator's place, or from behind block `index`. */
    method SkipEmptyDataBlocksForward()
      requires index <= |blocks|
      requires if index == |blocks| then data == None else data == Some(index) && at <= |blocks[index]|
      modifies this
      ensures Valid()
      ensures Position() == if old(index) == |blocks| then |Flat(blocks)| else Start(blocks, old(index)) + old(at)
    {
      assert blocks[..|blocks|] == blocks;
      ghost var target := if index == |blocks| then |Flat(blocks)| else Start(blocks, index) + at;
      while !IsValid()
        invariant index <= |blocks|
        invariant if index == |blocks| then data == None else data == Some(index) && at <= |blocks[index]|
        invariant target == if index == |blocks| then |Flat(blocks)| else Start(blocks, index) + at
        decreases |blocks| - index
      {
        // Move to the next block
        if index == |blocks| {
          data := None;
          return;
        }
        BlockInFlat(blocks, index);
        index := index + 1;
        InitDataBlock();
        if data.Some? {
          at := 0;
        }
      }
    }

    /** SkipEmptyDataBlocksBackward: to the last entry before block `index` when the data iterator is not
        valid. */
    method SkipEmptyDataBlocksBackward()
      requires index <= |blocks|
      requires if index == |blocks| then data == None else data == Some(index) && at <= |blocks[index]|
      modifies this
      ensures Valid()
      ensures old(IsValid()) ==> Position() == old(Position())
      ensures !old(IsValid()) && old(index) == |blocks| ==> !IsValid()
      ensures !old(IsValid()) && old(index) < |blocks| ==>
                var start := Start(blocks, old(index));
                Position() == if start == 0 then |Flat(blocks)| else start - 1
    {
      ghost var was, start := IsValid(), if index < |blocks| then Start(blocks, index) else 0;
      assert blocks[..0] == [];
      while !IsValid()
        invariant index <= |blocks|
        invariant if index == |blocks| then data == None else data == Some(index) && at <= |blocks[index]|
        invariant old(IsValid()) ==> IsValid() && index == old(index) && Position() == old(Position())
        invariant !old(IsValid()) && old(index) == |blocks| ==> index == |blocks|
        invariant !old(IsValid()) && old(index) < |blocks| && !IsValid() ==>
                    start == if index == |blocks| then 0 else Start(blocks, index)
        invariant !old(IsValid()) && old(index) < |blocks| && IsValid() ==> start > 0 && Position() == start - 1
        decreases !IsValid(), if index == |blocks| then 0 else index + 1
      {
        // Move to the previous block
        if index == |blocks| {
          data := None;
          return;
        }
        if index == 0 {
          index := |blocks|;
        } else {
          index := index - 1;
          BlockInFlat(blocks, index);
        }
        InitDataBlock();
        if data.Some? {
          at := if blocks[index] == [] then 0 else |blocks[index]| - 1;
        }
      }
    }

    method SeekToFirst()
      requires Valid()
      modifies this
      ensures Valid() && Position() == 0
    {
      assert blocks[..0] == [];
      index := 0;
      InitDataBlock();
      if data.Some? {
        at := 0;
      }
      SkipEmptyDataBlocksForward();
    }

    method SeekToLast()
      requires Valid()
      modifies this
      ensures Valid() && Position() == if Flat(blocks) == [] then 0 else |Flat(blocks)| - 1
    {
      assert blocks[..|blocks|] == blocks;
      if blocks != [] { BlockInFlat(blocks, |blocks| - 1); }
      index := if blocks == [] then 0 else |blocks| - 1;
      InitDataBlock();
      if data.Some? {
        at := if blocks[index] == [] then 0 else |blocks[index]| - 1;
      }
      SkipEmptyDataBlocksBackward();
    }

    method Next()
      requires Valid() && IsValid()
      modifies this
      ensures Valid() && Position() == old(Position()) + 1
    {
      at := at + 1;
      SkipEmptyDataBlocksForward();
    }

    method Prev()
      requires Valid() && IsValid()
      modifies this
      ensures Valid() && Position() == if old(Position()) == 0 then |Flat(blocks)| else old(Position()) - 1
    {
      CurrentIsAtPosition();
      if at == 0 {
        at := |blocks[data.value]|;
      } else {
        at := at - 1;
      }
      SkipEmptyDataBlocksBackward();
    }

    /** Seek, when the separators divide the blocks: the first entry at or after the target. */
    method Seek(target: InternalKey)
      requires Valid() && Divides(seps, blocks)
      modifies this
      ensures Valid() && Position() == LowerBound(Flat(blocks), target)
    {
      index := SeekSeparator(seps, target);
      InitDataBlock();
      if data.Some? {
        at := LowerBound(blocks[index], target);
      }
      SeekFacts(seps, blocks, target);
      SkipEmptyDataBlocksForward();
    }
  }

  /** The block the index names holds the place of the target, or the place is right behind it. */
  lemma SeekFacts(seps: seq<InternalKey>, blocks: seq<Run>, target: InternalKey)
    requires |seps| == |blocks| && Divides(seps, blocks)
    ensures var i := SeekSeparator(seps, target);
      LowerBound(Flat(blocks), target) ==
      if i == |blocks| then |Flat(blocks)| else Start(blocks, i) + LowerBound(blocks[i], target)
  {
    hide Sorted, Flat, Divides, Less;
    var rows, i := Flat(blocks), SeekSeparator(seps, target);
    assert blocks[..|blocks|] == blocks;
    AllBefore(seps, blocks, target, i);
    if i == |blocks| {
      LowerBoundIs(rows, target, |rows|);
    } else {
      SeekInBlock(seps, blocks, target, i);
    }
  }

  lemma SeekInBlock(seps: seq<InternalKey>, blocks: seq<Run>, target: InternalKey, i: nat)
    requires Divides(seps, blocks) && i < |blocks| && !Less(seps[i], target) && Start(blocks, i) <= |Flat(blocks)|
    requires forall m :: 0 <= m < Start(blocks, i) ==> Less(Flat(blocks)[m].key, target)
    ensures LowerBound(Flat(blocks), target) == Start(blocks, i) + LowerBound(blocks[i], target)
  {
    hide Flat, Divides, Less;
    var rows, start, block, n := Flat(blocks), Start(blocks, i), blocks[i], LowerBound(blocks[i], target);
    BlockInFlat(blocks, i);
    assert rows[start..start+|block|] == block;
    assert forall m :: 0 <= m < |block| ==> rows[start+m] == block[m];
    if start + n < |rows| && n == |block| {
      LaterBlock(seps, blocks, target, i, start + n);
    }
    LowerBoundIs(rows, target, start + n);
  }

  lemma {:induction false} AllBefore(seps: seq<InternalKey>, blocks: seq<Run>, target: InternalKey, i: nat)
    requires Divides(seps, blocks) && i <= |blocks| && forall j :: 0 <= j < i ==> Less(seps[j], target)
    ensures Start(blocks, i) <= |Flat(blocks)|
    ensures forall m :: 0 <= m < Start(blocks, i) ==> Less(Flat(blocks)[m].key, target)
  {
    FlatPrefix(blocks, i);
    if i > 0 {
      AllBefore(seps, blocks, target, i - 1);
      BlockInFlat(blocks, i - 1);
      var start, block := Start(blocks, i - 1), blocks[i-1];
      assert Flat(blocks)[start..start+|block|] == block;
      forall m | start <= m < start + |block| ensures Less(Flat(blocks)[m].key, target) {
        assert Flat(blocks)[m] == block[m-start] && block[m-start] in block;
      }
    }
  }

  /** Entries behind block i are after its separator. */
  lemma {:induction false} LaterBlock(seps: seq<InternalKey>, blocks: seq<Run>, target: InternalKey, i: nat, m: nat)
    requires Divides(seps, blocks) && i < |blocks| && !Less(seps[i], target)
    requires Start(blocks, i) + |blocks[i]| <= m < |Flat(blocks)|
    ensures !Less(Flat(blocks)[m].key, target)
  {
    BlockInFlat(blocks, i);
    assert blocks[..|blocks|] == blocks;
    var j := BlockOf(blocks, m, |blocks|);
    StartGrows(blocks, j + 1, i + 1);
    BlockInFlat(blocks, j);
    var start, block := Start(blocks, j), blocks[j];
    assert Flat(blocks)[start..start+|block|] == block;
    assert Flat(blocks)[m] == block[m-start] && block[m-start] in block;
    assert Less(seps[i], Flat(blocks)[m].key);
  }

  /** The block that holds position m. */
  lemma {:induction false} BlockOf(blocks: seq<Run>, m: nat, n: nat) returns (j: nat)
    requires n <= |blocks| && m < Start(blocks, n)
    ensures j < n && Start(blocks, j) <= m < Start(blocks, j + 1)
  {
    assert blocks[..0] == [];
    if m < Start(blocks, n - 1) { j := BlockOf(blocks, m, n - 1); } else { j := n - 1; }
  }

  lemma {:induction false} StartGrows(blocks: seq<Run>, i: nat, j: nat)
    requires i <= |blocks| && j <= |blocks|
    ensures i <= j ==> Start(blocks, i) <= Start(blocks, j)
  {
    if i < j {
      BlockInFlat(blocks, j - 1);
      StartGrows(blocks, i, j - 1);
    }
  }

  /** The index of a finished table divides its blocks. */
  lemma {:induction false} TableDivides(blocks: seq<Run>, index: seq<IndexEntry>)
    requires |index| == |blocks| && Indexed(blocks, index, |blocks|) && Sorted(Flat(blocks))
    ensures Divides(seq(|index|, i requires 0 <= i < |index| => index[i].sep), blocks)
  {
    var seps := seq(|index|, i requires 0 <= i < |index| => index[i].sep);
    hide Sorted, Flat;
    forall i, e | 0 <= i < |blocks| && e in blocks[i] ensures !Less(seps[i], e.key) {
      InOrder(blocks, i, e, i);
      IndexedAt(blocks, index, i);
    }
    forall i, j, e | 0 <= i < j < |blocks| && e in blocks[j] ensures Less(seps[i], e.key) {
      IndexedAt(blocks, index, i);
      InOrder(blocks, j, e, i);
      SeparatorBelow(blocks[i][|blocks[i]|-1].key, index[i].sep, blocks[i+1][0].key, e.key);
    }
  }

  lemma SeparatorBelow(last: InternalKey, sep: InternalKey, next: InternalKey, key: InternalKey)
    requires Separates(last, sep, next) && Less(last, key) && !Less(key, next)
    ensures Less(sep, key)
  {
  }

  /** An entry of block j is not after the last of its block, and not before the first of block i+1. */
  lemma InOrder(blocks: seq<Run>, j: nat, e: Entry, i: nat)
    requires Sorted(Flat(blocks)) && i <= j < |blocks| && e in blocks[j]
    ensures !Less(blocks[j][|blocks[j]|-1].key, e.key)
    ensures i < j && blocks[i+1] != [] ==> !Less(e.key, blocks[i+1][0].key)
    ensures i < j && blocks[i] != [] ==> Less(blocks[i][|blocks[i]|-1].key, e.key)
  {
    hide Less, Sorted, Flat, Start;
    var n :| 0 <= n < |blocks[j]| && blocks[j][n] == e;
    PlaceInFlat(blocks, j, n);
    PlaceInFlat(blocks, j, |blocks[j]| - 1);
    NotAfter(Flat(blocks), Start(blocks, j) + n, Start(blocks, j) + |blocks[j]| - 1);
    if i < j {
      StartGrows(blocks, i + 1, j);
      if blocks[i+1] != [] {
        PlaceInFlat(blocks, i + 1, 0);
        NotAfter(Flat(blocks), Start(blocks, i + 1), Start(blocks, j) + n);
      }
      if blocks[i] != [] {
        PlaceInFlat(blocks, i, |blocks[i]| - 1);
        BlockInFlat(blocks, i);
        NotAfter(Flat(blocks), Start(blocks, i) + |blocks[i]| - 1, Start(blocks, j) + n);
      }
    }
  }

  lemma PlaceInFlat(blocks: seq<Run>, j: nat, n: nat)
    requires j < |blocks| && n < |blocks[j]|
    ensures Start(blocks, j) + n < |Flat(blocks)| && Flat(blocks)[Start(blocks, j) + n] == blocks[j][n]
  {
    BlockInFlat(blocks, j);
    assert Flat(blocks)[Start(blocks, j)..Start(blocks, j + 1)][n] == blocks[j][n];
  }

  lemma NotAfter(rows: Run, m: nat, n: nat)
    requires Sorted(rows) && m <= n < |rows|
    ensures !Less(rows[n].key, rows[m].key) && (m < n ==> Less(rows[m].key, rows[n].key))
  {
  }
}
