/** Tables (leveldb/table/table_builder.cc, table.cc and two_level_iterator.cc): data blocks, an index of
    short separators, and filters. A lookup through all of these finds what a lookup in the plain run
    of entries finds. */
module Tables {
  import opened Slices
  import opened Options
  import opened Coding
  import opened Runs
  import opened Bloom

  /** An internal key with its user key in bytes. */
  datatype RawKey = RawKey(user: Bytes, sequence: nat, kind: ValueType) {
    function Key(): InternalKey { InternalKey(Rank(user), sequence, kind) }
  }

  // ---------------------------------------------------------------- separators

  /** What may stand in the index between two blocks: a key from `last` on and before `next`, which is
      `last` itself or has a user key strictly between. */
  ghost predicate Separates(last: InternalKey, sep: InternalKey, next: InternalKey) {
    sep == last || last.user < sep.user < next.user
  }

  /** InternalKeyComparator::FindShortestSeparator. */
  method FindSeparator(start: RawKey, limit: RawKey) returns (sep: RawKey)
    requires Less(start.Key(), limit.Key())
    ensures Separates(start.Key(), sep.Key(), limit.Key()) && |sep.user| <= |start.user|
    ensures var n, a, b := CommonPrefix(start.user, limit.user), start.user, limit.user;
      sep == if n + 1 < |a| && n < |b| && a[n] as int + 1 < b[n] as int
             then RawKey(a[..n] + [(a[n] + 1) as byte], 0xFF_FFFF_FFFF_FFFF, Value) else start
  {
    var tmp := FindShortestSeparator(start.user, limit.user);
    RankOrder(start.user, tmp);
    RankOrder(tmp, limit.user);
    RankOrder(start.user, limit.user);
    if |tmp| < |start.user| && Compare(start.user, tmp) < 0 {
      return RawKey(tmp, MAX_SEQUENCE, Value);
    }
    sep := start;
  }

  /** InternalKeyComparator::FindShortSuccessor. */
  method FindSuccessor(key: RawKey) returns (sep: RawKey)
    ensures (sep == key || key.Key().user < sep.Key().user) && |sep.user| <= |key.user|
    ensures (forall i :: 0 <= i < |key.user| ==> key.user[i] == 255) ==> sep == key
    ensures forall i :: 0 <= i < |key.user| && key.user[i] != 255 && (forall j :: 0 <= j < i ==> key.user[j] == 255) ==>
              sep == if i + 1 < |key.user| then RawKey(key.user[..i] + [(key.user[i] + 1) as byte], 0xFF_FFFF_FFFF_FFFF, Value)
                     else key
  {
    var tmp := FindShortSuccessor(key.user);
    RankOrder(key.user, tmp);
    if |tmp| < |key.user| && Compare(key.user, tmp) < 0 {
      return RawKey(tmp, MAX_SEQUENCE, Value);
    }
    sep := key;
  }

  // ---------------------------------------------------------------- what a table is

  /** An index entry: a separator and the offset of its block. */
  datatype IndexEntry = IndexEntry(sep: InternalKey, offset: nat)

  datatype Table = Table(blocks: seq<Run>, index: seq<IndexEntry>, filters: Option<Filters>)

  function Flat(blocks: seq<Run>): Run {
    if blocks == [] then [] else Flat(blocks[..|blocks|-1]) + blocks[|blocks|-1]
  }

  lemma {:induction false} FlatAppend(blocks: seq<Run>, block: Run)
    ensures Flat(blocks + [block]) == Flat(blocks) + block
  {
    assert (blocks + [block])[..|blocks|] == blocks;
  }

  /** The first n blocks end where the index says: entries of later blocks come after the separators. */
  ghost predicate Indexed(blocks: seq<Run>, index: seq<IndexEntry>, n: nat) {
    && n <= |blocks| && n <= |index|
    && (forall i :: 0 <= i < |blocks| ==> blocks[i] != [])
    && (forall i :: 0 <= i < n ==> !Less(index[i].sep, blocks[i][|blocks[i]|-1].key))
    && (forall i :: 0 <= i < n && i + 1 < |blocks| ==>
          Separates(blocks[i][|blocks[i]|-1].key, index[i].sep, blocks[i+1][0].key))
  }

  /** A finished table of the entries. */
  ghost predicate TableOK(t: Table, hash: Hash, rows: Run) {
    && Sorted(rows) && Flat(t.blocks) == rows && |t.index| == |t.blocks|
    && Indexed(t.blocks, t.index, |t.blocks|)
    && (forall i, j :: 0 <= i < j < |t.index| ==> t.index[i].offset < t.index[j].offset)
    && (t.filters.Some? ==> forall i, user :: 0 <= i < |t.blocks| && HasUser(t.blocks[i], user) ==>
          FiltersMayMatch(hash, t.filters.value, t.index[i].offset, user))
  }

  /** Some entry of the block has this user key. */
  ghost predicate HasUser(block: Run, user: Bytes) {
    exists e :: e in block && e.key.user == Rank(user)
  }

  // ---------------------------------------------------------------- where entries are

  /** Number of entries in the first n blocks. */
  function Start(blocks: seq<Run>, n: nat): nat
    requires n <= |blocks|
  {
    |Flat(blocks[..n])|
  }

  lemma {:induction false} BlockInFlat(blocks: seq<Run>, n: nat)
    requires n < |blocks|
    ensures Start(blocks, n + 1) == Start(blocks, n) + |blocks[n]| <= |Flat(blocks)|
    ensures Flat(blocks)[Start(blocks, n)..Start(blocks, n+1)] == blocks[n]
  {
    assert blocks[..n+1] == blocks[..n] + [blocks[n]];
    FlatAppend(blocks[..n], blocks[n]);
    FlatPrefix(blocks, n + 1);
  }

  lemma {:induction false} FlatPrefix(blocks: seq<Run>, n: nat)
    requires n <= |blocks|
    ensures Flat(blocks[..n]) <= Flat(blocks)
  {
    if n < |blocks| {
      var m := |blocks| - 1;
      FlatPrefix(blocks[..m], n);
      assert blocks[..m][..n] == blocks[..n];
    } else {
      assert blocks[..n] == blocks;
    }
  }

  // ---------------------------------------------------------------- the builder

  /** The blocks, the unfinished one included. */
  function AllBlocks(blocks: seq<Run>, dataBlock: Run): seq<Run> {
    if dataBlock == [] then blocks else blocks + [dataBlock]
  }

  ghost predicate BuildOK(rows: Run, blocks: seq<Run>, dataBlock: Run, index: seq<IndexEntry>, lastKey: InternalKey,
                          pending: bool) {
    && Sorted(rows) && rows == Flat(blocks) + dataBlock
    && |index| + (if pending then 1 else 0) == |blocks|
    && Indexed(AllBlocks(blocks, dataBlock), index, |index|)
    && (pending ==> dataBlock == []) && (!pending && blocks != [] ==> dataBlock != [])
    && (rows != [] ==> lastKey == rows[|rows|-1].key)
  }

  ghost predicate Placed(blocks: seq<Run>, offsets: seq<nat>, offset: nat) {
    && |offsets| == |blocks|
    && (forall i, j :: 0 <= i < j < |offsets| ==> offsets[i] < offsets[j])
    && (forall i :: 0 <= i < |offsets| ==> offsets[i] < offset)
  }

  /** Every user key of the block was added to the filter under its offset. */
  ghost predicate InFilter(block: Run, offset: nat, added: seq<(nat, Bytes)>) {
    forall user :: HasUser(block, user) ==> (offset, user) in added
  }

  const BLOCK_TRAILER := 5

  class TableBuilder {
    const blockSize: nat
    const sizeOf: Run -> nat             // CurrentSizeEstimate of a block with these entries
    const bytesOf: Run -> nat            // its size in the file
    const filter: FilterBlockBuilder?
    var dataBlock: Run
    var blocks: seq<Run>                 // the blocks in the file
    var offsets: seq<nat>                // their handles; the last one is pending_handle
    var offset: nat
    var index: seq<IndexEntry>
    var lastKey: RawKey
    var pendingIndexEntry: bool
    ghost var rows: Run

    ghost predicate Valid()
      reads this, filter
    {
      && BuildOK(rows, blocks, dataBlock, index, lastKey.Key(), pendingIndexEntry)
      && Placed(blocks, offsets, offset)
      && (forall i :: 0 <= i < |index| ==> index[i].offset == offsets[i])
      && (filter != null ==>
            && filter.Valid() && filter.at == offset
            && InFilter(dataBlock, offset, filter.added)
            && forall i :: 0 <= i < |blocks| ==> InFilter(blocks[i], offsets[i], filter.added))
    }

    constructor (filter: FilterBlockBuilder?, blockSize: nat, sizeOf: Run -> nat, bytesOf: Run -> nat)
      requires filter != null ==> filter.Valid() && filter.at == 0
      ensures Valid() && rows == [] && this.filter == filter
    {
      this.filter, this.blockSize, this.sizeOf, this.bytesOf := filter, blockSize, sizeOf, bytesOf;
      dataBlock, blocks, offsets, offset, index := [], [], [], 0, [];
      lastKey, pendingIndexEntry, rows := RawKey([], 0, Deletion), false, [];
    }

    method Add(key: RawKey, value: Bytes)
      requires Valid() && (rows != [] ==> Less(rows[|rows|-1].key, key.Key()))
      modifies this, filter
      ensures Valid() && rows == old(rows) + [Runs.Entry(key.Key(), value)]
      ensures var block := old(dataBlock) + [Runs.Entry(key.Key(), value)];
        if sizeOf(block) >= blockSize then
          && blocks == old(blocks) + [block] && dataBlock == []
          && offsets == old(offsets) + [old(offset)] && offset == old(offset) + bytesOf(block) + 5
        else blocks == old(blocks) && dataBlock == block && offsets == old(offsets) && offset == old(offset)
      ensures filter != null ==> filter.added == old(filter.added) + [(old(offset), key.user)]
    {
      hide BuildOK, Placed, InFilter, FilterBlockBuilder.Valid, Less;
      var e := Runs.Entry(key.Key(), value);
      CompleteIndexEntry(key, e);
      if filter != null {
        AddToFilter(dataBlock, offset, filter.added, e, key.user, blocks, offsets);
        filter.AddKey(key.user);
      }
      lastKey := key;
      dataBlock := dataBlock + [e];
      rows := rows + [e];
      if sizeOf(dataBlock) >= blockSize {
        Flush();
      }
    }

    /** The first key of a block completes the index entry of the block before it. */
    method CompleteIndexEntry(key: RawKey, ghost e: Runs.Entry)
      requires BuildOK(rows, blocks, dataBlock, index, lastKey.Key(), pendingIndexEntry) && Placed(blocks, offsets, offset)
      requires forall i :: 0 <= i < |index| ==> index[i].offset == offsets[i]
      requires e.key == key.Key() && (rows != [] ==> Less(rows[|rows|-1].key, e.key))
      modifies this`index, this`pendingIndexEntry
      ensures !pendingIndexEntry && BuildOK(rows + [e], blocks, dataBlock + [e], index, e.key, false)
      ensures |offsets| == |blocks| && forall i :: 0 <= i < |index| ==> index[i].offset == offsets[i]
    {
      hide BuildOK, Placed, Less;
      PlacedOrder(blocks, offsets, offset);
      if pendingIndexEntry {
        PendingFacts(rows, blocks, dataBlock, index, lastKey.Key(), offsets, offset);
        var sep := FindSeparator(lastKey, key);
        AddFirst(rows, blocks, index, lastKey.Key(), e, IndexEntry(sep.Key(), offsets[|offsets|-1]));
        index := index + [IndexEntry(sep.Key(), offsets[|offsets|-1])];
        pendingIndexEntry := false;
        assert [] + [e] == [e];
      } else {
        AddNext(rows, blocks, dataBlock, index, lastKey.Key(), e);
      }
    }

    method Flush()
      requires Valid()
      modifies this, filter
      ensures Valid() && rows == old(rows) && dataBlock == []
      ensures pendingIndexEntry <==> blocks != []
      ensures if old(dataBlock) == [] then blocks == old(blocks) && offsets == old(offsets) && offset == old(offset)
        else
          && blocks == old(blocks) + [old(dataBlock)] && offsets == old(offsets) + [old(offset)]
          && offset == old(offset) + bytesOf(old(dataBlock)) + 5
      ensures filter != null ==> filter.added == old(filter.added)
    {
      hide BuildOK, Placed, InFilter, FilterBlockBuilder.Valid, Less;
      FlushFacts(rows, blocks, dataBlock, index, lastKey.Key(), pendingIndexEntry, offsets, offset, offset + bytesOf(dataBlock) + BLOCK_TRAILER);
      if dataBlock == [] {
        return;
      }
      // WriteBlock
      offsets := offsets + [offset];
      offset := offset + bytesOf(dataBlock) + BLOCK_TRAILER;
      blocks := blocks + [dataBlock];
      dataBlock := [];
      pendingIndexEntry := true;
      if filter != null {
        filter.StartBlock(offset);
        EmptyInFilter(offset, filter.added);
      }
    }

    method Finish(ghost hash: Hash) returns (t: Table)
      requires Valid() && (filter != null ==> filter.hash == hash)
      modifies this, filter
      ensures TableOK(t, hash, old(rows))
      ensures t.blocks == AllBlocks(old(blocks), old(dataBlock))
      ensures forall i :: 0 <= i < |t.index| ==>
                t.index[i].offset == if i < |old(offsets)| then old(offsets)[i] else old(offset)
      ensures if filter == null then t.filters == None
        else t.filters.Some? && AllFiltersFor(hash, filter.bitsPerKey, filter.k, t.filters.value, old(filter.added))
    {
      hide BuildOK, Placed, InFilter, FilterBlockBuilder.Valid, Less, TableOK, FiltersMayMatch, HasUser, AllFiltersFor;
      Flush();
      PlacedOrder(blocks, offsets, offset);
      var filters := FinishFilters(hash);
      FinishIndexBlock();
      t := Table(blocks, index, filters);
      IsTable(t, hash, rows, offsets);
    }

    method FinishFilters(ghost hash: Hash) returns (filters: Option<Filters>)
      requires Valid() && (filter != null ==> filter.hash == hash)
      modifies filter
      ensures filter == null ==> filters == None
      ensures filter != null ==>
                && filters.Some? && AllFiltersFor(hash, filter.bitsPerKey, filter.k, filters.value, old(filter.added))
                && |offsets| == |blocks|
                && forall i, user :: 0 <= i < |blocks| && HasUser(blocks[i], user) ==>
                     FiltersMayMatch(hash, filters.value, offsets[i], user)
    {
      hide BuildOK, Placed, InFilter, FilterBlockBuilder.Valid, FiltersMayMatch, HasUser, AllFiltersFor;
      PlacedOrder(blocks, offsets, offset);
      filters := None;
      if filter != null {
        ghost var added := filter.added;
        var f := filter.Finish();
        filters := Some(f);
        forall i, user | 0 <= i < |blocks| && HasUser(blocks[i], user) ensures FiltersMayMatch(hash, f, offsets[i], user) {
          AddedUser(blocks[i], offsets[i], added, user);
        }
      }
    }

    /** The last index entry, which no later block completes. */
    method FinishIndexBlock()
      requires BuildOK(rows, blocks, dataBlock, index, lastKey.Key(), pendingIndexEntry) && Placed(blocks, offsets, offset)
      requires dataBlock == [] && (pendingIndexEntry <==> blocks != [])
      requires forall i :: 0 <= i < |index| ==> index[i].offset == offsets[i]
      modifies this`index, this`pendingIndexEntry
      ensures Sorted(rows) && Flat(blocks) == rows && |index| == |blocks| == |offsets| && Indexed(blocks, index, |blocks|)
      ensures forall i :: 0 <= i < |index| ==> index[i].offset == offsets[i]
    {
      hide BuildOK, Placed, Less, Indexed, Sorted, Flat;
      PlacedOrder(blocks, offsets, offset);
      if pendingIndexEntry {
        PendingFacts(rows, blocks, dataBlock, index, lastKey.Key(), offsets, offset);
        var sep := FindSuccessor(lastKey);
        FinishIndex(rows, blocks, index, lastKey.Key(), IndexEntry(sep.Key(), offsets[|offsets|-1]));
        index := index + [IndexEntry(sep.Key(), offsets[|offsets|-1])];
        pendingIndexEntry := false;
      } else {
        NothingBuilt(rows, blocks, index, lastKey.Key());
      }
    }
  }

  lemma IsTable(t: Table, hash: Hash, rows: Run, offsets: seq<nat>)
    requires Sorted(rows) && Flat(t.blocks) == rows && |t.index| == |t.blocks| == |offsets|
    requires Indexed(t.blocks, t.index, |t.blocks|)
    requires forall i :: 0 <= i < |t.index| ==> t.index[i].offset == offsets[i]
    requires forall i, j :: 0 <= i < j < |offsets| ==> offsets[i] < offsets[j]
    requires t.filters.Some? ==> forall i, user :: 0 <= i < |t.blocks| && HasUser(t.blocks[i], user) ==>
               FiltersMayMatch(hash, t.filters.value, offsets[i], user)
    ensures TableOK(t, hash, rows)
  {
    hide Sorted, Flat, Indexed, HasUser, FiltersMayMatch;
  }

  lemma PendingFacts(rows: Run, blocks: seq<Run>, dataBlock: Run, index: seq<IndexEntry>, lastKey: InternalKey,
                     offsets: seq<nat>, offset: nat)
    requires BuildOK(rows, blocks, dataBlock, index, lastKey, true) && Placed(blocks, offsets, offset)
    ensures dataBlock == [] && |index| + 1 == |blocks| == |offsets|
    ensures rows != [] && lastKey == rows[|rows|-1].key
  {
    var n := |blocks| - 1;
    assert blocks[n] != [] && Flat(blocks) == Flat(blocks[..n]) + blocks[n];
  }

  /** The first entry of a block completes the index entry of the block before it. */
  lemma AddFirst(rows: Run, blocks: seq<Run>, index: seq<IndexEntry>, lastKey: InternalKey, e: Runs.Entry, i: IndexEntry)
    requires BuildOK(rows, blocks, [], index, lastKey, true) && Separates(lastKey, i.sep, e.key)
    requires rows != [] ==> Less(rows[|rows|-1].key, e.key)
    ensures BuildOK(rows + [e], blocks, [e], index + [i], e.key, false)
  {
    AppendSorted(rows, e);
    LastOfFlat(blocks);
    assert AllBlocks(blocks, []) == blocks && AllBlocks(blocks, [e]) == blocks + [[e]];
  }

  lemma AddNext(rows: Run, blocks: seq<Run>, dataBlock: Run, index: seq<IndexEntry>, lastKey: InternalKey, e: Runs.Entry)
    requires BuildOK(rows, blocks, dataBlock, index, lastKey, false)
    requires rows != [] ==> Less(rows[|rows|-1].key, e.key)
    ensures BuildOK(rows + [e], blocks, dataBlock + [e], index, e.key, false)
  {
    hide Less, Sorted, Separates, Flat;
    AppendSorted(rows, e);
    assert rows + [e] == Flat(blocks) + (dataBlock + [e]);
    GrowLast(blocks, dataBlock, index, e);
  }

  lemma GrowLast(blocks: seq<Run>, dataBlock: Run, index: seq<IndexEntry>, e: Runs.Entry)
    requires Indexed(AllBlocks(blocks, dataBlock), index, |index|) && |index| == |blocks| && (blocks != [] ==> dataBlock != [])
    ensures Indexed(AllBlocks(blocks, dataBlock + [e]), index, |index|)
  {
    hide Less, Separates;
    var old_, new_ := AllBlocks(blocks, dataBlock), AllBlocks(blocks, dataBlock + [e]);
    assert forall i :: 0 <= i < |blocks| ==> old_[i] == new_[i] == blocks[i];
    assert blocks != [] ==> old_[|blocks|][0] == new_[|blocks|][0];
  }

  lemma AppendSorted(rows: Run, e: Runs.Entry)
    requires Sorted(rows) && (rows != [] ==> Less(rows[|rows|-1].key, e.key))
    ensures Sorted(rows + [e])
  {
  }

  /** The last entry of the blocks is the last entry of the last block. */
  lemma LastOfFlat(blocks: seq<Run>)
    requires blocks != [] && blocks[|blocks|-1] != []
    ensures Flat(blocks) != [] && Flat(blocks)[|Flat(blocks)|-1] == blocks[|blocks|-1][|blocks[|blocks|-1]|-1]
  {
  }

  lemma FlushFacts(rows: Run, blocks: seq<Run>, dataBlock: Run, index: seq<IndexEntry>, lastKey: InternalKey, pending: bool,
                   offsets: seq<nat>, offset: nat, offset': nat)
    requires BuildOK(rows, blocks, dataBlock, index, lastKey, pending) && Placed(blocks, offsets, offset) && offset < offset'
    ensures |offsets| == |blocks|
    ensures dataBlock == [] ==> (pending <==> blocks != [])
    ensures dataBlock != [] ==>
              && BuildOK(rows, blocks + [dataBlock], [], index, lastKey, true)
              && Placed(blocks + [dataBlock], offsets + [offset], offset')
  {
    FlatAppend(blocks, dataBlock);
  }

  lemma EmptyInFilter(offset: nat, added: seq<(nat, Bytes)>)
    ensures InFilter([], offset, added)
  {
  }

  lemma AddedUser(block: Run, offset: nat, added: seq<(nat, Bytes)>, user: Bytes)
    requires InFilter(block, offset, added) && HasUser(block, user)
    ensures (offset, user) in added
  {
  }

  lemma AddToFilter(block: Run, offset: nat, added: seq<(nat, Bytes)>, e: Runs.Entry, user: Bytes, blocks: seq<Run>, offsets: seq<nat>)
    requires e.key.user == Rank(user) && |offsets| >= |blocks|
    ensures InFilter(block, offset, added) ==> InFilter(block + [e], offset, added + [(offset, user)])
    ensures forall i :: 0 <= i < |blocks| && InFilter(blocks[i], offsets[i], added) ==>
              InFilter(blocks[i], offsets[i], added + [(offset, user)])
  {
    if InFilter(block, offset, added) {
      forall u | HasUser(block + [e], u) ensures (offset, u) in added + [(offset, user)] {
        var x :| x in block + [e] && x.key.user == Rank(u);
        if x == e { RankOrder(u, user); } else { assert HasUser(block, u); }
      }
    }
  }

  lemma FinishIndex(rows: Run, blocks: seq<Run>, index: seq<IndexEntry>, lastKey: InternalKey, i: IndexEntry)
    requires BuildOK(rows, blocks, [], index, lastKey, true)
    requires i.sep == lastKey || lastKey.user < i.sep.user
    ensures |index| + 1 == |blocks| && Flat(blocks) == rows && Sorted(rows)
    ensures Indexed(blocks, index + [i], |blocks|)
  {
    hide Less, Sorted, Separates, Flat;
    assert Flat(blocks) + [] == Flat(blocks);
    assert blocks[|blocks|-1] != [];
    LastOfFlat(blocks);
    NotBelow(i.sep, lastKey);
    LastIndex(blocks, index, i, lastKey);
  }

  lemma NotBelow(sep: InternalKey, last: InternalKey)
    requires sep == last || last.user < sep.user
    ensures !Less(sep, last)
  {
  }

  lemma LastIndex(blocks: seq<Run>, index: seq<IndexEntry>, i: IndexEntry, last: InternalKey)
    requires Indexed(blocks, index, |index|) && |index| + 1 == |blocks| && !Less(i.sep, last)
    requires last == blocks[|index|][|blocks[|index|]|-1].key
    ensures Indexed(blocks, index + [i], |blocks|)
  {
    hide Less, Separates;
    assert forall j :: 0 <= j < |index| ==> (index + [i])[j] == index[j];
  }

  lemma NothingBuilt(rows: Run, blocks: seq<Run>, index: seq<IndexEntry>, lastKey: InternalKey)
    requires BuildOK(rows, blocks, [], index, lastKey, false)
    ensures blocks == [] && index == [] && rows == [] && Indexed(blocks, index, 0) && Sorted(rows) && Flat(blocks) == []
  {
  }

  lemma PlacedOrder(blocks: seq<Run>, offsets: seq<nat>, offset: nat)
    requires Placed(blocks, offsets, offset)
    ensures |offsets| == |blocks| && forall i, j :: 0 <= i < j < |offsets| ==> offsets[i] < offsets[j]
  {
  }

  // ---------------------------------------------------------------- looking a key up

  /** The first index entry at or after the key. */
  function SeekIndex(index: seq<IndexEntry>, key: InternalKey): (i: nat)
    ensures i <= |index|
    ensures forall j :: 0 <= j < i ==> Less(index[j].sep, key)
    ensures i < |index| ==> !Less(index[i].sep, key)
  {
    if index == [] || !Less(index[0].sep, key) then 0 else 1 + SeekIndex(index[1..], key)
  }

  /** Table::InternalGet: the entry handed to the saver, if any. */
  method InternalGet(t: Table, hash: Hash, k: RawKey, ghost rows: Run) returns (r: Option<Runs.Entry>)
    requires TableOK(t, hash, rows) && k.kind == Value
    ensures r.Some? ==> r.value in rows && !Less(r.value.key, k.Key())
    ensures Saved(r, Rank(k.user)) == RunGet(rows, Rank(k.user), k.sequence)
  {
    hide TableOK, FiltersMayMatch, Less, Sorted, Rank;
    var key := k.Key();
    var i := SeekIndex(t.index, key);
    LookupFacts(t, hash, rows, k, i);
    r := None;
    if i < |t.index| {
      if t.filters.Some? {
        var may := BlockMayMatch(hash, t.filters.value, t.index[i].offset, k.user);
        if !may {
          return;
        }
      }
      var n := LowerBound(t.blocks[i], key);
      if n < |t.blocks[i]| {
        r := Some(t.blocks[i][n]);
      }
    }
  }

  /** SaveValue: what the caller makes of the entry. */
  function Saved(r: Option<Runs.Entry>, user: UserKey): Lookup {
    if r.None? || r.value.key.user != user then NotFound else Answer(r.value)
  }

  lemma LookupFacts(t: Table, hash: Hash, rows: Run, k: RawKey, i: nat)
    requires TableOK(t, hash, rows) && k.kind == Value && i == SeekIndex(t.index, k.Key())
    ensures |t.index| == |t.blocks|
    ensures i == |t.index| ==> RunGet(rows, Rank(k.user), k.sequence) == NotFound
    ensures i < |t.index| ==>
              var n := LowerBound(t.blocks[i], k.Key());
              var r := if n < |t.blocks[i]| then Some(t.blocks[i][n]) else None;
              && (r.Some? ==> r.value in rows)
              && Saved(r, Rank(k.user)) == RunGet(rows, Rank(k.user), k.sequence)
              && (t.filters.Some? && !FiltersMayMatch(hash, t.filters.value, t.index[i].offset, k.user) ==>
                    RunGet(rows, Rank(k.user), k.sequence) == NotFound)
  {
    var key, user := k.Key(), Rank(k.user);
    assert key == SeekKey(user, k.sequence);
    TableParts(t, hash, rows, i, k.user);
    hide TableOK, FiltersMayMatch, Less, Sorted, Indexed, Flat, HasUser;
    assert t.blocks[..|t.blocks|] == t.blocks;
    if i < |t.index| {
      FoundInBlock(t.blocks, t.index, rows, key, i);
      var block, n := t.blocks[i], LowerBound(t.blocks[i], key);
      if n < |block| && block[n].key.user == user { UserThere(block, block[n], k.user); }
    } else {
      BeforeBlock(t.blocks, t.index, rows, key, i);
      LowerBoundIs(rows, key, |rows|);
    }
  }

  lemma UserThere(block: Run, e: Runs.Entry, user: Bytes)
    requires e in block && e.key.user == Rank(user)
    ensures HasUser(block, user)
  {
  }

  lemma TableParts(t: Table, hash: Hash, rows: Run, i: nat, user: Bytes)
    requires TableOK(t, hash, rows)
    ensures Sorted(rows) && Flat(t.blocks) == rows && |t.index| == |t.blocks| && Indexed(t.blocks, t.index, |t.blocks|)
    ensures i < |t.blocks| && t.filters.Some? && HasUser(t.blocks[i], user) ==>
              FiltersMayMatch(hash, t.filters.value, t.index[i].offset, user)
  {
  }

  /** What the named block tells about the whole run. */
  lemma FoundInBlock(blocks: seq<Run>, index: seq<IndexEntry>, rows: Run, key: InternalKey, i: nat)
    requires Sorted(rows) && Flat(blocks) == rows && |index| == |blocks| && Indexed(blocks, index, |blocks|)
    requires i < |index| && !Less(index[i].sep, key) && forall j :: 0 <= j < i ==> Less(index[j].sep, key)
    ensures var n, m := LowerBound(blocks[i], key), LowerBound(rows, key);
      if n < |blocks[i]| then m < |rows| && rows[m] == blocks[i][n] && blocks[i][n] in blocks[i] && rows[m] in rows
      else m == |rows| || rows[m].key.user != key.user
  {
    hide Less, Sorted, Indexed, Flat;
    var block, n, start := blocks[i], LowerBound(blocks[i], key), Start(blocks, i);
    BeforeBlock(blocks, index, rows, key, i);
    BlockInFlat(blocks, i);
    assert rows[start..start+|block|] == block;
    if n < |block| {
      assert forall m :: 0 <= m < |block| ==> rows[start+m] == block[m];
      LowerBoundIs(rows, key, start + n);
    } else {
      NothingLater(blocks, index, rows, key, i);
    }
  }

  lemma LowerBoundIs(run: Run, target: InternalKey, n: nat)
    requires n <= |run| && (forall i :: 0 <= i < n ==> Less(run[i].key, target))
    requires n < |run| ==> !Less(run[n].key, target)
    ensures LowerBound(run, target) == n
  {
    var m := LowerBound(run, target);
  }

  /** All entries of blocks before the one the index names are before the key. */
  lemma {:induction false} BeforeBlock(blocks: seq<Run>, index: seq<IndexEntry>, rows: Run, key: InternalKey, i: nat)
    requires Sorted(rows) && Flat(blocks) == rows && |index| == |blocks| && Indexed(blocks, index, |blocks|)
    requires i <= |index| && forall j :: 0 <= j < i ==> Less(index[j].sep, key)
    ensures Start(blocks, i) <= |rows| && forall m :: 0 <= m < Start(blocks, i) ==> Less(rows[m].key, key)
  {
    FlatPrefix(blocks, i);
    if i > 0 {
      BeforeBlock(blocks, index, rows, key, i - 1);
      BlockInFlat(blocks, i - 1);
      var block, start := blocks[i-1], Start(blocks, i - 1);
      assert rows[start..start+|block|] == block;
      assert block != [] && !Less(index[i-1].sep, block[|block|-1].key);
      BlockBefore(rows, start, block, index[i-1].sep, key);
    }
  }

  lemma BlockBefore(rows: Run, start: nat, block: Run, sep: InternalKey, key: InternalKey)
    requires Sorted(rows) && start + |block| <= |rows| && rows[start..start+|block|] == block
    requires block != [] && !Less(sep, block[|block|-1].key) && Less(sep, key)
    ensures forall m :: start <= m < start + |block| ==> Less(rows[m].key, key)
  {
    assert rows[start+|block|-1] == block[|block|-1];
    forall m | start <= m < start + |block| ensures Less(rows[m].key, key) {
      UpToSeparator(rows, m, start + |block| - 1, sep, key);
    }
  }

  lemma UpToSeparator(rows: Run, m: nat, last: nat, sep: InternalKey, key: InternalKey)
    requires Sorted(rows) && m <= last < |rows| && !Less(sep, rows[last].key) && Less(sep, key)
    ensures Less(rows[m].key, key)
  {
    if m < last { assert Less(rows[m].key, rows[last].key); }
  }

  /** If the block the index names has nothing at or after the key, no later entry has its user key. */
  lemma NothingLater(blocks: seq<Run>, index: seq<IndexEntry>, rows: Run, key: InternalKey, i: nat)
    requires Sorted(rows) && Flat(blocks) == rows && |index| == |blocks| && Indexed(blocks, index, |blocks|)
    requires i < |index| && !Less(index[i].sep, key) && LowerBound(blocks[i], key) == |blocks[i]|
    requires forall j :: 0 <= j < i ==> Less(index[j].sep, key)
    ensures var n := LowerBound(rows, key); n == |rows| || rows[n].key.user != key.user
  {
    hide Less, Sorted, Flat, Separates, Indexed;
    IndexedAt(blocks, index, i);
    var block, start, n := blocks[i], Start(blocks, i), LowerBound(rows, key);
    BeforeBlock(blocks, index, rows, key, i);
    BlockInFlat(blocks, i);
    assert rows[start..start+|block|] == block;
    assert forall m :: 0 <= m < |block| ==> rows[start+m] == block[m];
    assert blocks[..|blocks|] == blocks;
    var next := start + |block|;
    if n < |rows| && i + 1 < |blocks| {
      BlockInFlat(blocks, i + 1);
      assert rows[next..next+|blocks[i+1]|] == blocks[i+1];
      assert rows[next] == blocks[i+1][0];
      AfterSeparator(block[|block|-1].key, index[i].sep, rows[next].key, key);
      LowerBoundIs(rows, key, next);
    } else if i + 1 == |blocks| {
      LowerBoundIs(rows, key, |rows|);
    }
  }

  lemma IndexedAt(blocks: seq<Run>, index: seq<IndexEntry>, i: nat)
    requires Indexed(blocks, index, |blocks|) && i < |blocks| == |index|
    ensures blocks[i] != []
    ensures i + 1 < |blocks| ==>
              blocks[i+1] != [] && Separates(blocks[i][|blocks[i]|-1].key, index[i].sep, blocks[i+1][0].key)
  {
  }

  lemma AfterSeparator(last: InternalKey, sep: InternalKey, next: InternalKey, key: InternalKey)
    requires Separates(last, sep, next) && Less(last, key) && !Less(sep, key)
    ensures next.user > key.user && !Less(next, key)
  {
  }
}
