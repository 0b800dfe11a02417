/** Table blocks (leveldb/table/block_builder.cc and block.cc): prefix-compressed entries with restart
    points, and an iterator that finds its way through the bytes. */
module Block {
  import opened Slices
  import opened Options
  import opened Coding

  datatype Item = Item(key: Bytes, value: Bytes)

  /** One entry: how many key bytes it shares with the one before, the rest of the key, and the value. */
  function EntryBytes(shared: nat, item: Item): (r: Bytes)
    requires shared <= |item.key|
    ensures |r| >= 3
  {
    Varint(shared) + Varint(|item.key| - shared) + Varint(|item.value|) + item.key[shared..] + item.value
  }

  /** Where the items of a block are: item i is at offsets[i]..offsets[i+1]; restarts[j] is the number of
      the j-th item stored without sharing. */
  datatype Layout = Layout(items: seq<Item>, offsets: seq<nat>, shared: seq<nat>, restarts: seq<nat>)

  const NO_ITEMS := Layout([], [0], [], [0])

  /** Item i is stored in the data, and its shared bytes are those of the item before. */
  ghost predicate ItemOK(l: Layout, data: Bytes, i: nat) {
    && i < |l.items| == |l.shared| && |l.offsets| == |l.items| + 1
    && l.offsets[i] < l.offsets[i+1] <= |data| && l.shared[i] <= |l.items[i].key| < WORD
    && data[l.offsets[i]..l.offsets[i+1]] == EntryBytes(l.shared[i], l.items[i])
    && (if i == 0 then l.shared[0] == 0
        else l.shared[i] <= |l.items[i-1].key| && l.items[i].key[..l.shared[i]] == l.items[i-1].key[..l.shared[i]])
  }

  ghost predicate RestartsOK(l: Layout) {
    && |l.restarts| > 0 && l.restarts[0] == 0 && |l.shared| == |l.items|
    && (forall j, k :: 0 <= j < k < |l.restarts| ==> l.restarts[j] < l.restarts[k])
    && (forall j :: 0 <= j < |l.restarts| && l.items != [] ==> l.restarts[j] < |l.items| && l.shared[l.restarts[j]] == 0)
    && (l.items == [] ==> l.restarts == [0])
  }

  ghost predicate LayoutOK(l: Layout, data: Bytes) {
    && |l.shared| == |l.items| && |l.offsets| == |l.items| + 1
    && l.offsets[0] == 0 && l.offsets[|l.items|] == |data|
    && (forall i: nat :: i < |l.items| ==> ItemOK(l, data, i))
    && RestartsOK(l)
  }

  lemma {:induction false} OffsetsIncrease(l: Layout, data: Bytes, i: nat, j: nat)
    requires LayoutOK(l, data) && i < j <= |l.items|
    ensures l.offsets[i] < l.offsets[j] <= |data|
  {
    assert ItemOK(l, data, j - 1);
    if i < j - 1 { OffsetsIncrease(l, data, i, j - 1); }
  }

  // ---------------------------------------------------------------- the builder

  /** The restart array: file offsets, then their number. */
  function RestartArray(restarts: seq<nat>): (r: Bytes)
    requires forall i :: 0 <= i < |restarts| ==> restarts[i] < WORD
    ensures |r| == 4 * |restarts|
  {
    if restarts == [] then [] else RestartArray(restarts[..|restarts|-1]) + EncodeFixed32(restarts[|restarts|-1])
  }

  /** What the builder's fields say about the items added so far: a restart after every `interval`. */
  ghost predicate BuilderOK(l: Layout, data: Bytes, restarts: seq<nat>, counter: nat, lastKey: Bytes, interval: nat) {
    && interval >= 1 && LayoutOK(l, data)
    && RestartOffsets(l, restarts)
    && lastKey == (if l.items == [] then [] else l.items[|l.items|-1].key)
    && (forall j :: 0 < j < |restarts| ==> l.restarts[j] - l.restarts[j-1] == interval)
    && counter <= interval && counter == |l.items| - l.restarts[|restarts|-1]
  }

  ghost predicate RestartOffsets(l: Layout, restarts: seq<nat>) {
    && |restarts| == |l.restarts|
    && forall j :: 0 <= j < |restarts| ==> l.restarts[j] < |l.offsets| && restarts[j] == l.offsets[l.restarts[j]]
  }

  class BlockBuilder {
    const interval: nat
    var buffer: Bytes
    var restarts: seq<nat>
    var counter: nat
    var finished: bool
    var lastKey: Bytes
    ghost var layout: Layout

    ghost predicate Valid()
      reads this
    {
      BuilderOK(layout, buffer, restarts, counter, lastKey, interval)
    }

    constructor (interval: nat)
      requires interval >= 1
      ensures Valid() && layout == NO_ITEMS && !finished && this.interval == interval
    {
      this.interval := interval;
      buffer, restarts, counter, finished, lastKey := [], [0], 0, false, [];
      layout := NO_ITEMS;
    }

    /** Add. What it shares is the longest common prefix with the last key, or nothing at a restart. */
    method Add(key: Bytes, value: Bytes)
      requires Valid() && !finished && |key| < WORD && |value| < WORD
      modifies this
      ensures Valid() && !finished
      ensures var restart := old(counter) >= interval;
        layout == Added(old(layout), |buffer|, Item(key, value), restart,
                        if restart then 0 else CommonPrefix(old(lastKey), key))
      ensures var shared := if old(counter) >= interval then 0 else CommonPrefix(old(lastKey), key);
        buffer == old(buffer) + (Varint(shared) + Varint(|key| - shared) + Varint(|value|) + key[shared..] + value)
      ensures restarts == old(restarts) + if old(counter) >= interval then [|old(buffer)|] else []
    {
      hide BuilderOK, EntryBytes, Varint, CommonPrefix;
      ghost var restart, item := counter >= interval, Item(key, value);
      var shared := 0;
      if counter < interval {
        shared := SharedWith(lastKey, key);
        AddSharing(layout, buffer, restarts, counter, lastKey, interval, item);
      } else {
        AddRestarting(layout, buffer, restarts, counter, lastKey, interval, item);
        restarts := restarts + [|buffer|];
        counter := 0;
      }
      var entry := FormatEntry(shared, key, value);
      buffer := buffer + entry;
      lastKey := lastKey[..shared] + key[shared..];
      assert lastKey == key;
      counter := counter + 1;
      layout := Added(layout, |buffer|, item, restart, shared);
    }

    method Finish() returns (contents: Bytes)
      requires Valid() && |buffer| + 4 * |restarts| + 4 < WORD
      modifies this
      ensures finished && layout == old(layout) && IsBlock(contents, layout)
      ensures restarts == old(restarts) && HasTrailer(contents, old(buffer), restarts)
    {
      ghost var data := buffer;
      RestartsFit(layout, data, restarts);
      hide BuilderOK, LayoutOK, RestartOffsets, HasTrailer;
      for i := 0 to |restarts|
        invariant layout == old(layout) && restarts == old(restarts)
        invariant buffer == data + RestartArray(restarts[..i])
      {
        assert restarts[..i+1][..i] == restarts[..i];
        buffer := buffer + EncodeFixed32(restarts[i]);
      }
      assert restarts[..|restarts|] == restarts;
      buffer := buffer + EncodeFixed32(|restarts|);
      finished := true;
      contents := buffer;
      assert IsBlockOf(contents, layout, data, restarts);
      Trailer(data, restarts, contents);
    }
  }

  /** See how much sharing to do with the previous string. */
  method SharedWith(lastKey: Bytes, key: Bytes) returns (shared: nat)
    ensures shared == CommonPrefix(lastKey, key)
  {
    shared := 0;
    var minLength := if |lastKey| < |key| then |lastKey| else |key|;
    while shared < minLength && lastKey[shared] == key[shared]
      invariant 0 <= shared <= minLength && lastKey[..shared] == key[..shared]
    {
      shared := shared + 1;
    }
    CommonPrefixIs(lastKey, key, shared);
  }

  method FormatEntry(shared: nat, key: Bytes, value: Bytes) returns (entry: Bytes)
    requires shared <= |key| < WORD && |value| < WORD
    ensures entry == EntryBytes(shared, Item(key, value))
    ensures entry == Varint(shared) + Varint(|key| - shared) + Varint(|value|) + key[shared..] + value
  {
    var nonShared := |key| - shared;
    EncodeVarint32IsVarint(shared);
    EncodeVarint32IsVarint(nonShared);
    EncodeVarint32IsVarint(|value|);
    entry := EncodeVarint32(shared) + EncodeVarint32(nonShared) + EncodeVarint32(|value|) + key[shared..] + value;
  }

  lemma AddSharing(l: Layout, data: Bytes, restarts: seq<nat>, counter: nat, lastKey: Bytes, interval: nat, item: Item)
    requires BuilderOK(l, data, restarts, counter, lastKey, interval) && counter < interval && |item.key| < WORD
    ensures var n := CommonPrefix(lastKey, item.key); var data' := data + EntryBytes(n, item);
      n <= |lastKey| && n <= |item.key| && lastKey[..n] == item.key[..n] &&
      BuilderOK(Added(l, |data'|, item, false, n), data', restarts, counter + 1, item.key, interval)
  {
    AddedOK(l, data, item, false, CommonPrefix(lastKey, item.key));
    hide LayoutOK;
  }

  lemma AddRestarting(l: Layout, data: Bytes, restarts: seq<nat>, counter: nat, lastKey: Bytes, interval: nat, item: Item)
    requires BuilderOK(l, data, restarts, counter, lastKey, interval) && counter >= interval && |item.key| < WORD
    ensures var data' := data + EntryBytes(0, item);
      BuilderOK(Added(l, |data'|, item, true, 0), data', restarts + [|data|], 1, item.key, interval)
  {
    AddedOK(l, data, item, true, 0);
    assert l.offsets[|l.items|] == |data| && |l.offsets| == |l.items| + 1;
    hide LayoutOK;
  }

  function Added(l: Layout, end: nat, item: Item, restart: bool, shared: nat): Layout {
    Layout(l.items + [item], l.offsets + [end], l.shared + [shared], if restart then l.restarts + [|l.items|] else l.restarts)
  }

  lemma AddedOK(l: Layout, data: Bytes, item: Item, restart: bool, shared: nat)
    requires LayoutOK(l, data) && shared <= |item.key| < WORD && (l.items == [] || restart ==> shared == 0)
    requires restart ==> l.items != []
    requires l.items != [] ==>
               var last := l.items[|l.items|-1].key;
               shared <= |last| && item.key[..shared] == last[..shared]
    ensures var data' := data + EntryBytes(shared, item); LayoutOK(Added(l, |data'|, item, restart, shared), data')
  {
    var data' := data + EntryBytes(shared, item);
    var l' := Added(l, |data'|, item, restart, shared);
    hide EntryBytes;
    forall i: nat | i < |l'.items| ensures ItemOK(l', data', i) {
      if i < |l.items| {
        assert ItemOK(l, data, i);
        assert data'[l.offsets[i]..l.offsets[i+1]] == data[l.offsets[i]..l.offsets[i+1]];
      } else {
        assert data'[|data|..] == EntryBytes(shared, item);
      }
    }
  }

  // ---------------------------------------------------------------- the contents of a finished block

  ghost predicate IsBlock(contents: Bytes, l: Layout) {
    && |contents| < WORD
    && exists data, restarts: seq<nat> :: IsBlockOf(contents, l, data, restarts)
  }

  ghost predicate IsBlockOf(contents: Bytes, l: Layout, data: Bytes, restarts: seq<nat>) {
    && LayoutOK(l, data) && RestartOffsets(l, restarts) && |restarts| < WORD
    && (forall j :: 0 <= j < |restarts| ==> restarts[j] < WORD)
    && contents == data + RestartArray(restarts) + EncodeFixed32(|restarts|)
  }

  lemma RestartsFit(l: Layout, data: Bytes, restarts: seq<nat>)
    requires LayoutOK(l, data) && |data| < WORD && RestartOffsets(l, restarts)
    ensures forall j :: 0 <= j < |restarts| ==> restarts[j] < WORD
  {
    forall j | 0 <= j < |restarts| ensures restarts[j] < WORD {
      if l.restarts[j] < |l.items| { OffsetsIncrease(l, data, l.restarts[j], |l.items|); }
    }
  }

  // ---------------------------------------------------------------- finding things in the bytes

  lemma {:induction false} RestartAt(restarts: seq<nat>, j: nat)
    requires j < |restarts| && forall i :: 0 <= i < |restarts| ==> restarts[i] < WORD
    ensures |RestartArray(restarts)| == 4 * |restarts|
    ensures RestartArray(restarts)[4*j..4*j+4] == EncodeFixed32(restarts[j])
  {
    var n := |restarts| - 1;
    if j < n {
      RestartAt(restarts[..n], j);
      assert RestartArray(restarts)[4*j..4*j+4] == RestartArray(restarts[..n])[4*j..4*j+4];
    }
  }

  /** The entries, the offset of every restart, four bytes each, and how many there are. */
  ghost predicate HasTrailer(contents: Bytes, data: Bytes, restarts: seq<nat>) {
    var n, m := |data|, |restarts|;
    && m < WORD && |contents| == n + 4 * m + 4 && contents[..n] == data
    && (forall j :: 0 <= j < m ==> restarts[j] < WORD && contents[n+4*j..n+4*j+4] == EncodeFixed32(restarts[j]))
    && contents[n+4*m..] == EncodeFixed32(m)
  }

  lemma Trailer(data: Bytes, restarts: seq<nat>, contents: Bytes)
    requires |restarts| < WORD && forall j :: 0 <= j < |restarts| ==> restarts[j] < WORD
    requires contents == data + RestartArray(restarts) + EncodeFixed32(|restarts|)
    ensures HasTrailer(contents, data, restarts)
  {
    hide RestartArray, EncodeFixed32;
    RestartArraySize(restarts, RestartArray(restarts), EncodeFixed32(|restarts|));
    OuterParts(data, RestartArray(restarts), EncodeFixed32(|restarts|), contents);
    forall j | 0 <= j < |restarts|
      ensures contents[|data|+4*j..|data|+4*j+4] == EncodeFixed32(restarts[j])
    {
      TrailerEntry(data, restarts, RestartArray(restarts), EncodeFixed32(|restarts|), contents, j);
    }
  }

  lemma TrailerEntry(data: Bytes, restarts: seq<nat>, offsets: Bytes, count: Bytes, contents: Bytes, j: nat)
    requires j < |restarts| && forall i :: 0 <= i < |restarts| ==> restarts[i] < WORD
    requires offsets == RestartArray(restarts) && contents == data + offsets + count
    ensures |data| + 4 * j + 4 <= |contents|
    ensures contents[|data|+4*j..|data|+4*j+4] == EncodeFixed32(restarts[j])
  {
    hide RestartArray, EncodeFixed32;
    RestartAt(restarts, j);
    MiddlePart(data, offsets, count, 4 * j, 4 * j + 4, contents);
  }

  lemma RestartArraySize(restarts: seq<nat>, offsets: Bytes, count: Bytes)
    requires |restarts| < WORD && forall j :: 0 <= j < |restarts| ==> restarts[j] < WORD
    requires offsets == RestartArray(restarts) && count == EncodeFixed32(|restarts|)
    ensures |offsets| == 4 * |restarts| && |count| == 4
  {
  }

  lemma OuterParts(a: Bytes, b: Bytes, c: Bytes, whole: Bytes)
    requires whole == a + b + c
    ensures |whole| == |a| + |b| + |c| && whole[..|a|] == a && whole[|a|+|b|..] == c
  {
  }

  lemma MiddlePart(a: Bytes, b: Bytes, c: Bytes, lo: nat, hi: nat, whole: Bytes)
    requires lo <= hi <= |b| && whole == a + b + c
    ensures whole[|a|+lo..|a|+hi] == b[lo..hi]
  {
  }

  /** The block's bytes, seen from the iterator: data up to `limit`, then the restart array. */
  ghost predicate Parsed(contents: Bytes, limit: nat, numRestarts: nat, l: Layout) {
    && limit + 4 * numRestarts + 4 == |contents| < WORD && 0 < numRestarts == |l.restarts|
    && LayoutOK(l, contents[..limit])
    && (forall j :: 0 <= j < numRestarts ==> l.restarts[j] <= |l.items|)
    && (forall j :: 0 <= j < numRestarts ==>
          DecodeFixed32(contents[limit+4*j..limit+4*j+4]) == l.offsets[l.restarts[j]])
  }

  lemma LayoutSizes(l: Layout, data: Bytes)
    requires LayoutOK(l, data)
    ensures |l.restarts| > 0 && |l.offsets| == |l.items| + 1
  {
  }

  /** The Block constructor and NewIterator find the parts of a finished block. */
  lemma BlockIsParsed(contents: Bytes, l: Layout)
    requires IsBlock(contents, l)
    ensures |contents| >= 4
    ensures var n := DecodeFixed32(contents[|contents|-4..]);
      n == |l.restarts| && (n + 1) * 4 <= |contents| && Parsed(contents, |contents| - (n + 1) * 4, n, l)
  {
    hide LayoutOK, RestartArray, EncodeFixed32, DecodeFixed32;
    var data, restarts: seq<nat> :| IsBlockOf(contents, l, data, restarts);
    LayoutSizes(l, data);
    Trailer(data, restarts, contents);
    Fixed32RoundTrip(|restarts|);
    forall j | 0 <= j < |restarts| ensures DecodeFixed32(EncodeFixed32(restarts[j])) == restarts[j] {
      Fixed32RoundTrip(restarts[j]);
    }
  }

  datatype Entry = Entry(at: nat, shared: nat, nonShared: nat, valueLength: nat)

  /** The bytes at p are this entry, followed by others. */
  ghost predicate EntryAt(contents: Bytes, p: nat, limit: nat, shared: nat, item: Item) {
    && p <= limit <= |contents| && limit < WORD && shared <= |item.key| < WORD
    && EntryBytes(shared, item) <= contents[p..limit]
  }

  function Lengths(shared: nat, nonShared: nat, valueLength: nat): Bytes {
    Varint(shared) + Varint(nonShared) + Varint(valueLength)
  }

  /** The first part of DecodeEntry: three varints, with a fast path for small ones. */
  method DecodeLengths(contents: Bytes, p: nat, limit: nat, ghost x: Word, ghost y: Word, ghost z: Word)
      returns (r: Option<Entry>)
    requires p + 3 <= limit <= |contents|
    ensures r.Some? ==> p < r.value.at <= limit
    ensures Lengths(x, y, z) <= contents[p..limit] ==> r == Some(Entry(p + |Lengths(x, y, z)|, x, y, z))
  {
    hide DecodeVarint, Varint;
    if Lengths(x, y, z) <= contents[p..limit] {
      LengthParts(contents, p, limit, x, y, z);
      DecodesTo(x, contents[p..limit]);
      DecodesTo(y, contents[p+|Varint(x)|..limit]);
      DecodesTo(z, contents[p+|Varint(x)|+|Varint(y)|..limit]);
    }
    var b0, b1, b2 := contents[p], contents[p+1], contents[p+2];
    if b0 < 128 && b1 < 128 && b2 < 128 {
      // Fast path: all three values are encoded in one byte each
      if Lengths(x, y, z) <= contents[p..limit] {
        OneByte(x, contents[p..limit]);
        OneByte(y, contents[p+1..limit]);
        OneByte(z, contents[p+2..limit]);
      }
      return Some(Entry(p + 3, b0, b1, b2));
    }
    var d0 := GetVarint32(contents[p..limit]);
    if d0.None? { return None; }
    var at := p + d0.value.length;
    var d1 := GetVarint32(contents[at..limit]);
    if d1.None? { return None; }
    at := at + d1.value.length;
    var d2 := GetVarint32(contents[at..limit]);
    if d2.None? { return None; }
    r := Some(Entry(at + d2.value.length, d0.value.value, d1.value.value, d2.value.value));
  }

  lemma LengthParts(contents: Bytes, p: nat, limit: nat, x: Word, y: Word, z: Word)
    requires p <= limit <= |contents| && Lengths(x, y, z) <= contents[p..limit]
    ensures var q1 := p + |Varint(x)|; var q2 := q1 + |Varint(y)|;
      && p + |Lengths(x, y, z)| == q2 + |Varint(z)| <= limit
      && Varint(x) <= contents[p..limit] && Varint(y) <= contents[q1..limit] && Varint(z) <= contents[q2..limit]
  {
    hide Varint, DecodeVarint, Lengths;
    var v0, v1, v2 := Varint(x), Varint(y), Varint(z);
    LengthsAre(x, y, z);
    Starts(contents, p, limit, Lengths(x, y, z), v0, v1 + v2);
    var q1 := p + |v0|;
    Starts(contents, q1, limit, v1 + v2, v1, v2);
    var q2 := q1 + |v1|;
    StartsWhole(contents, q2, limit, v2);
  }

  /** DecodeEntry: the three lengths, and where the key bytes start. None for a corrupt entry. */
  method DecodeEntry(contents: Bytes, p: nat, limit: nat, ghost shared: nat, ghost item: Item) returns (r: Option<Entry>)
    requires p <= limit <= |contents|
    ensures r.Some? ==> p < r.value.at && r.value.at + r.value.nonShared + r.value.valueLength <= limit
    ensures EntryAt(contents, p, limit, shared, item) ==>
              && r.Some? && r.value.shared == shared && r.value.nonShared == |item.key| - shared
              && r.value.valueLength == |item.value|
              && r.value.at + r.value.nonShared + r.value.valueLength == p + |EntryBytes(shared, item)|
              && contents[r.value.at..r.value.at+r.value.nonShared] == item.key[shared..]
              && contents[r.value.at+r.value.nonShared..r.value.at+r.value.nonShared+r.value.valueLength] == item.value
  {
    hide EntryAt, EntryBytes, Lengths;
    if EntryAt(contents, p, limit, shared, item) {
      EntryParts(contents, p, limit, shared, item);
    }
    if limit - p < 3 {
      return None;
    }
    r := DecodeLengths(contents, p, limit, if shared <= |item.key| < WORD then shared else 0,
                       if shared <= |item.key| < WORD then |item.key| - shared else 0,
                       if |item.value| < WORD then |item.value| else 0);
    if r.Some? && limit - r.value.at < r.value.nonShared + r.value.valueLength {
      return None;
    }
  }

  /** How an entry is read, piece by piece. */
  lemma EntryParts(contents: Bytes, p: nat, limit: nat, shared: nat, item: Item)
    requires EntryAt(contents, p, limit, shared, item)
    ensures shared <= |item.key| < WORD && |item.value| < WORD && p + 3 <= limit <= |contents|
    ensures var lengths := Lengths(shared, |item.key| - shared, |item.value|);
      var q3 := p + |lengths|;
      var q4 := q3 + |item.key| - shared;
      && q4 + |item.value| == p + |EntryBytes(shared, item)| <= limit && lengths <= contents[p..limit]
      && contents[q3..q4] == item.key[shared..] && contents[q4..q4+|item.value|] == item.value
  {
    var lengths := Lengths(shared, |item.key| - shared, |item.value|);
    var k, v := item.key[shared..], item.value;
    hide Lengths, EntryBytes;
    EntryIs(shared, item);
    assert |contents[p..limit]| >= |EntryBytes(shared, item)| >= 3;
    Starts(contents, p, limit, lengths + (k + v), lengths, k + v);
    var q3 := p + |lengths|;
    Starts(contents, q3, limit, k + v, k, v);
    var q4 := q3 + |k|;
    StartsWhole(contents, q4, limit, v);
  }

  lemma OneByte(v: nat, b: Bytes)
    requires Varint(v) <= b && b[0] < 128
    ensures Varint(v) == [v] && b[0] as int == v
  {
    assert b[0] == Varint(v)[0];
  }

  lemma LengthsAre(x: nat, y: nat, z: nat)
    ensures Lengths(x, y, z) == Varint(x) + (Varint(y) + Varint(z))
  {
  }

  lemma EntryIs(shared: nat, item: Item)
    requires shared <= |item.key|
    ensures EntryBytes(shared, item) ==
            Lengths(shared, |item.key| - shared, |item.value|) + (item.key[shared..] + item.value)
  {
  }

  lemma StartsWhole(contents: Bytes, p: nat, limit: nat, all: Bytes)
    requires p <= limit <= |contents| && all <= contents[p..limit]
    ensures p + |all| <= limit && contents[p..p+|all|] == all
  {
    assert all == all + [];
    Starts(contents, p, limit, all, all, []);
  }

  lemma DecodesTo(v: nat, b: Bytes)
    requires Varint(v) <= b && v < WORD
    ensures DecodeVarint(b, 5) == Some(Decoded(v, |Varint(v)|))
  {
    assert b == Varint(v) + b[|Varint(v)|..];
    assert Power(5) > WORD;
    VarintRoundTrip(v, b[|Varint(v)|..], 5);
  }

  lemma Starts(contents: Bytes, p: nat, limit: nat, all: Bytes, first: Bytes, rest: Bytes)
    requires p <= limit <= |contents| && all == first + rest && all <= contents[p..limit]
    ensures first <= contents[p..limit] && p + |first| + |rest| <= limit && rest <= contents[p+|first|..limit]
    ensures contents[p..p+|first|] == first
  {
    assert contents[p..limit][..|all|] == all;
    assert contents[p+|first|..limit] == contents[p..limit][|first|..];
    assert contents[p..p+|first|] == contents[p..limit][..|first|];
  }

  lemma ParsedEntry(contents: Bytes, limit: nat, numRestarts: nat, l: Layout, q: nat)
    requires Parsed(contents, limit, numRestarts, l) && q < |l.items|
    ensures ItemOK(l, contents[..limit], q) && EntryAt(contents, l.offsets[q], limit, l.shared[q], l.items[q])
    ensures l.offsets[q] + |EntryBytes(l.shared[q], l.items[q])| == l.offsets[q+1] <= limit
  {
    assert ItemOK(l, contents[..limit], q);
    hide LayoutOK, EntryBytes;
    var e, p := EntryBytes(l.shared[q], l.items[q]), l.offsets[q];
    assert contents[..limit][p..l.offsets[q+1]] == contents[p..l.offsets[q+1]] == contents[p..limit][..|e|] == e;
  }

  lemma ParsedOffsets(contents: Bytes, limit: nat, numRestarts: nat, l: Layout)
    requires Parsed(contents, limit, numRestarts, l)
    ensures |l.offsets| == |l.items| + 1 && |l.shared| == |l.items|
    ensures l.offsets[0] == 0 && l.offsets[|l.items|] == limit <= |contents|
    ensures forall i, j :: 0 <= i < j <= |l.items| ==> l.offsets[i] < l.offsets[j] <= limit
  {
    forall i, j | 0 <= i < j <= |l.items| ensures l.offsets[i] < l.offsets[j] <= limit {
      OffsetsIncrease(l, contents[..limit], i, j);
    }
  }

  lemma ParsedRestarts(contents: Bytes, limit: nat, numRestarts: nat, l: Layout)
    requires Parsed(contents, limit, numRestarts, l)
    ensures RestartsOK(l) && 0 < numRestarts == |l.restarts|
    ensures limit + 4 * numRestarts + 4 == |contents| && |l.offsets| == |l.items| + 1
    ensures forall j :: 0 <= j < numRestarts ==> l.restarts[j] <= |l.items|
  {
  }

  // ---------------------------------------------------------------- the iterator

  /** The comparator: "is less than". */
  type Order = (Bytes, Bytes) -> bool

  ghost predicate Transitive(less: Order) {
    forall a, b, c :: less(a, b) && less(b, c) ==> less(a, c)
  }

  ghost predicate Ascending(items: seq<Item>, less: Order) {
    forall i, j :: 0 <= i < j < |items| ==> less(items[i].key, items[j].key)
  }

  /** The next entry to parse is number q: the shared bytes of its key are already there. */
  ghost predicate Before(l: Layout, q: nat, next: nat, key: Bytes, restartIndex: nat) {
    && q <= |l.items| && |l.offsets| == |l.items| + 1 && |l.shared| == |l.items| && next == l.offsets[q]
    && (q < |l.items| ==> l.shared[q] <= |key| && l.shared[q] <= |l.items[q].key|)
    && (q < |l.items| ==> key[..l.shared[q]] == l.items[q].key[..l.shared[q]])
    && restartIndex < |l.restarts| && l.restarts[restartIndex] <= q
  }

  /** The iterator stands at item p. */
  ghost predicate StandsAt(l: Layout, p: nat, current: nat, next: nat, key: Bytes, value: Bytes, restartIndex: nat) {
    && p < |l.items| && |l.offsets| == |l.items| + 1
    && current == l.offsets[p] && next == l.offsets[p+1] && Item(key, value) == l.items[p]
    && restartIndex < |l.restarts| && l.restarts[restartIndex] <= p
  }

  class BlockIter {
    const contents: Bytes
    const limit: nat              // restarts_: where the restart array starts
    const numRestarts: nat
    const less: Order
    ghost const layout: Layout
    var current: nat
    var restartIndex: nat
    var key: Bytes
    var valueStart: nat
    var valueSize: nat
    ghost var pos: nat            // the item it stands at; |items| when it is not valid

    ghost predicate Static() {
      Parsed(contents, limit, numRestarts, layout)
    }

    ghost predicate Valid()
      reads this
    {
      && Static() && pos <= |layout.items| && valueStart + valueSize <= limit <= |contents|
      && (if pos == |layout.items| then current == limit
          else StandsAt(layout, pos, current, valueStart + valueSize, key, Value(), restartIndex))
    }

    function Value(): Bytes
      requires valueStart + valueSize <= |contents|
      reads this
    {
      contents[valueStart..valueStart+valueSize]
    }

    constructor (contents: Bytes, less: Order, ghost l: Layout)
      requires IsBlock(contents, l)
      ensures Valid() && layout == l && this.less == less && pos == |l.items|
    {
      BlockIsParsed(contents, l);
      var n := DecodeFixed32(contents[|contents|-4..]);
      this.contents, this.less, layout := contents, less, l;
      limit, numRestarts := |contents| - (n + 1) * 4, n;
      current, restartIndex := |contents| - (n + 1) * 4, n;
      key, valueStart, valueSize := [], 0, 0;
      pos := |l.items|;
    }

    predicate IsValid()
      reads this
    {
      current < limit
    }

    /** IsValid says whether the iterator stands at an item; Key and Value are that item's. */
    lemma AtItem()
      requires Valid()
      ensures IsValid() <==> pos < |layout.items|
      ensures IsValid() ==> Item(key, Value()) == layout.items[pos]
    {
      ParsedOffsets(contents, limit, numRestarts, layout);
    }

    function NextEntryOffset(): nat
      reads this
    {
      valueStart + valueSize
    }

    method GetRestartPoint(index: nat) returns (offset: nat)
      requires Static() && index < numRestarts
      ensures |layout.offsets| == |layout.items| + 1 && layout.restarts[index] <= |layout.items|
      ensures offset == layout.offsets[layout.restarts[index]]
    {
      ParsedRestarts(contents, limit, numRestarts, layout);
      offset := DecodeFixed32(contents[limit+4*index..limit+4*index+4]);
    }

    method SeekToRestartPoint(index: nat)
      requires Static() && index < numRestarts
      modifies this
      ensures index < |layout.restarts| && restartIndex == index
      ensures Before(layout, layout.restarts[index], NextEntryOffset(), key, restartIndex)
      ensures valueStart + valueSize <= limit
    {
      ParsedRestarts(contents, limit, numRestarts, layout);
      ParsedOffsets(contents, limit, numRestarts, layout);
      key := [];
      restartIndex := index;
      var offset := GetRestartPoint(index);
      valueStart, valueSize := offset, 0;
    }

    /** ParseNextKey: to item q, or off the end. */
    method ParseNextKey(ghost q: nat) returns (ok: bool)
      requires Static() && Before(layout, q, NextEntryOffset(), key, restartIndex)
      requires valueStart + valueSize <= limit
      modifies this
      ensures Valid() && pos == q && (ok <==> q < |layout.items|)
    {
      hide Parsed, EntryAt, EntryBytes;
      ParsedOffsets(contents, limit, numRestarts, layout);
      ParsedRestarts(contents, limit, numRestarts, layout);
      pos := q;
      current := NextEntryOffset();
      if current >= limit {
        // No more entries
        current, restartIndex := limit, numRestarts;
        return false;
      }
      ParsedEntry(contents, limit, numRestarts, layout, q);
      var entry := DecodeEntry(contents, current, limit, layout.shared[q], layout.items[q]);
      if entry.None? || |key| < entry.value.shared {
        // A corrupt entry: a finished block has none
        assert false;
      }
      var Entry(at, shared, nonShared, valueLength) := entry.value;
      key := key[..shared] + contents[at..at+nonShared];
      assert key == layout.items[q].key;
      valueStart, valueSize := at + nonShared, valueLength;
      AdvanceRestart(q);
      ok := true;
    }

    /** The loop that moves restart_index_ up to the current entry. */
    method AdvanceRestart(ghost q: nat)
      requires Static() && q < |layout.items| && |layout.offsets| == |layout.items| + 1 && current == layout.offsets[q]
      requires restartIndex < |layout.restarts| && layout.restarts[restartIndex] <= q
      modifies this`restartIndex
      ensures restartIndex < |layout.restarts| && layout.restarts[restartIndex] <= q
    {
      hide Parsed;
      ParsedOffsets(contents, limit, numRestarts, layout);
      ParsedRestarts(contents, limit, numRestarts, layout);
      while restartIndex + 1 < numRestarts
        invariant restartIndex < |layout.restarts| && layout.restarts[restartIndex] <= q
        decreases numRestarts - restartIndex
      {
        var point := GetRestartPoint(restartIndex + 1);
        if point >= current {
          break;
        }
        restartIndex := restartIndex + 1;
      }
    }

    method Next()
      requires Valid() && IsValid()
      modifies this
      ensures Valid() && pos == old(pos) + 1
    {
      AtItem();
      StandingIsBefore(contents, limit, numRestarts, layout, pos, current, NextEntryOffset(), key, Value(), restartIndex);
      var ok := ParseNextKey(pos + 1);
    }

    method SeekToFirst()
      requires Valid()
      modifies this
      ensures Valid() && pos == 0
    {
      ParsedRestarts(contents, limit, numRestarts, layout);
      SeekToRestartPoint(0);
      var ok := ParseNextKey(0);
    }

    method SeekToLast()
      requires Valid()
      modifies this
      ensures Valid() && pos == if layout.items == [] then 0 else |layout.items| - 1
    {
      hide Parsed, StandsAt, Before;
      ParsedRestarts(contents, limit, numRestarts, layout);
      ParsedOffsets(contents, limit, numRestarts, layout);
      SeekToRestartPoint(numRestarts - 1);
      ScanTo(limit, |layout.items|, layout.restarts[numRestarts-1]);
    }

    /** The loops that parse on until the end of the current entry hits the start of item `stop`. */
    method ScanTo(original: nat, ghost stop: nat, ghost from: nat)
      requires Static() && Before(layout, from, NextEntryOffset(), key, restartIndex)
      requires valueStart + valueSize <= limit && stop <= |layout.items| && |layout.offsets| == |layout.items| + 1
      requires original == layout.offsets[stop]
      requires from < stop || (from == stop == |layout.items|)
      modifies this
      ensures Valid() && pos == if from == stop then |layout.items| else stop - 1
    {
      hide Parsed, StandsAt, Before;
      ParsedOffsets(contents, limit, numRestarts, layout);
      var ok := ParseNextKey(from);
      NextIs();
      while ok && NextEntryOffset() < original
        invariant Valid() && (ok <==> pos < |layout.items|)
        invariant if from == stop then pos == |layout.items| else from <= pos < stop
        invariant pos < |layout.items| ==> NextEntryOffset() == layout.offsets[pos+1]
        decreases |layout.items| - pos
      {
        StandingIsBefore(contents, limit, numRestarts, layout, pos, current, NextEntryOffset(), key, Value(), restartIndex);
        ok := ParseNextKey(pos + 1);
        NextIs();
      }
    }

    lemma NextIs()
      requires Valid()
      ensures pos < |layout.items| ==>
                && |layout.offsets| == |layout.items| + 1 && NextEntryOffset() == layout.offsets[pos+1]
                && current == layout.offsets[pos] && key == layout.items[pos].key
                && restartIndex < |layout.restarts| && layout.restarts[restartIndex] <= pos
                && StandsAt(layout, pos, current, NextEntryOffset(), key, Value(), restartIndex)
    {
    }

    /** Prev: back to a restart point before the current entry, then forward to the entry before it. */
    method Prev()
      requires Valid() && IsValid()
      modifies this
      ensures Valid() && pos == if old(pos) == 0 then |layout.items| else old(pos) - 1
    {
      AtItem();
      NextIs();
      hide Parsed, StandsAt, Before;
      ParsedRestarts(contents, limit, numRestarts, layout);
      ParsedOffsets(contents, limit, numRestarts, layout);
      var original := current;
      ghost var p := pos;
      var point := GetRestartPoint(restartIndex);
      while point >= original
        invariant restartIndex < numRestarts && layout.restarts[restartIndex] <= p
        invariant point == layout.offsets[layout.restarts[restartIndex]]
        invariant key == old(key) && valueStart == old(valueStart) && valueSize == old(valueSize) && current == original
        invariant pos == p
        decreases restartIndex
      {
        if restartIndex == 0 {
          // No more entries
          current, restartIndex := limit, numRestarts;
          pos := |layout.items|;
          return;
        }
        restartIndex := restartIndex - 1;
        point := GetRestartPoint(restartIndex);
      }
      SeekToRestartPoint(restartIndex);
      ScanTo(original, p, layout.restarts[restartIndex]);
    }

    /** Seek: binary search in the restart array for the last restart point with a key before the
        target, then a scan for the first key at or after it. */
    method Seek(target: Bytes)
      requires Valid() && Transitive(less) && Ascending(layout.items, less)
      modifies this
      ensures Valid()
      ensures forall i :: 0 <= i < pos ==> less(layout.items[i].key, target)
      ensures pos < |layout.items| ==> !less(layout.items[pos].key, target)
    {
      hide Parsed, StandsAt, Before, RestartsOK, Transitive, Ascending;
      ParsedRestarts(contents, limit, numRestarts, layout);
      var left := SearchRestarts(target);
      SeekToRestartPoint(left);
      ghost var q := layout.restarts[left];
      while true
        invariant Static() && Before(layout, q, NextEntryOffset(), key, restartIndex) && valueStart + valueSize <= limit
        invariant q <= |layout.items| && forall i :: 0 <= i < q ==> less(layout.items[i].key, target)
        decreases |layout.items| - q
      {
        var ok := ParseNextKey(q);
        if !ok {
          return;
        }
        NextIs();
        if !less(key, target) {
          return;
        }
        StandingIsBefore(contents, limit, numRestarts, layout, pos, current, NextEntryOffset(), key, Value(), restartIndex);
        q := q + 1;
      }
    }

    /** All items before the restart point that is found are before the target. */
    method SearchRestarts(target: Bytes) returns (left: nat)
      requires Static() && Transitive(less) && Ascending(layout.items, less)
      ensures left < numRestarts == |layout.restarts| && layout.restarts[left] <= |layout.items|
      ensures forall i :: 0 <= i < layout.restarts[left] ==> less(layout.items[i].key, target)
    {
      hide Parsed, Transitive, Ascending;
      ParsedRestarts(contents, limit, numRestarts, layout);
      ParsedOffsets(contents, limit, numRestarts, layout);
      left := 0;
      var right := numRestarts - 1;
      while left < right
        invariant 0 <= left <= right < numRestarts
        invariant forall i :: 0 <= i < layout.restarts[left] ==> less(layout.items[i].key, target)
      {
        var mid := (left + right + 1) / 2;
        var offset := GetRestartPoint(mid);
        ghost var m := layout.restarts[mid];
        assert layout.restarts[0] < m;
        ParsedEntry(contents, limit, numRestarts, layout, m);
        var entry := DecodeEntry(contents, offset, limit, 0, layout.items[m]);
        if entry.None? || entry.value.shared != 0 {
          // A corrupt entry: a finished block has none
          assert false;
        }
        var midKey := contents[entry.value.at..entry.value.at+entry.value.nonShared];
        assert midKey == layout.items[m].key;
        if less(midKey, target) {
          // All blocks before mid are uninteresting
          AllBefore(layout.items, less, m, target);
          left := mid;
        } else {
          // All blocks at or after mid are uninteresting
          right := mid - 1;
        }
      }
    }
  }

  lemma AllBefore(items: seq<Item>, less: Order, m: nat, target: Bytes)
    requires Transitive(less) && Ascending(items, less) && m < |items| && less(items[m].key, target)
    ensures forall i :: 0 <= i <= m ==> less(items[i].key, target)
  {
  }

  /** After an item comes the next one. */
  lemma StandingIsBefore(contents: Bytes, limit: nat, numRestarts: nat, l: Layout, p: nat, current: nat, next: nat,
                         key: Bytes, value: Bytes, restartIndex: nat)
    requires Parsed(contents, limit, numRestarts, l) && StandsAt(l, p, current, next, key, value, restartIndex)
    ensures Before(l, p + 1, next, key, restartIndex)
  {
    ParsedOffsets(contents, limit, numRestarts, l);
    if p + 1 < |l.items| { ParsedEntry(contents, limit, numRestarts, l, p + 1); }
  }
}
