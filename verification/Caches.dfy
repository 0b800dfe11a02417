/** Layered key/value caches (IneryCompositeKVCache in dbaccess.h): a chain of write-back overlays with
    tombstones and read-through copies that ends in a database. `View` is the one finite map that the
    chain stands for. */
module Caches {
  import opened Slices
  import opened Options

  /** A key, by its rank in operator<; the empty key comes first. */
  type Key = k: real | k >= 0.0
  const EMPTY_KEY: Key := 0.0

  /** IsEmpty looks at a part of the value; SetEmpty clears all of it. */
  datatype Value = Value(content: Bytes, rest: Bytes)
  const NO_VALUE := Value([], [])

  predicate IsEmpty(v: Value) { v.content == [] }

  type View = map<Key, Value>

  /** An absent key and an empty value are the same to every reader. */
  function Find(m: View, key: Key): Option<Value> {
    if key in m && !IsEmpty(m[key]) then Some(m[key]) else None
  }

  ghost predicate AllLive(m: View) { forall k :: k in m ==> !IsEmpty(m[k]) }

  /** Writing an empty value removes the key. */
  function SetIn(m: View, key: Key, value: Value): View {
    if IsEmpty(value) then m - {key} else m[key := value]
  }

  // ---------------------------------------------------------------- overlays

  /** What a cache with these entries shows over the view below it. */
  ghost function Overlay(below: View, data: View): View {
    map k | k in below.Keys + data.Keys && !IsEmpty(if k in data then data[k] else below[k])
          :: if k in data then data[k] else below[k]
  }

  /** A read-through copy of what is below, tombstones included, shows nothing new. */
  lemma CopyShowsNothing(below: View, data: View, key: Key, value: Value)
    requires key !in data && Find(below, key) == (if IsEmpty(value) then None else Some(value))
    ensures Overlay(below, data[key := value]) == Overlay(below, data)
  {
  }

  lemma SetShows(below: View, data: View, key: Key, value: Value)
    ensures Overlay(below, data[key := value]) == SetIn(Overlay(below, data), key, value)
  {
  }

  lemma FlushShows(below: View, middle: View, data: View)
    ensures Overlay(below, middle + data) == Overlay(Overlay(below, middle), data)
  {
  }

  /** Writing the live entries and erasing the others makes the database show the cache's view. */
  lemma BatchShows(below: View, data: View, writes: View, erases: set<Key>)
    requires AllLive(below)
    requires writes == map k | k in data && !IsEmpty(data[k]) :: data[k]
    requires erases == set k | k in data && IsEmpty(data[k])
    ensures (below - erases) + writes == Overlay(below, data)
    ensures AllLive(writes) && writes.Keys !! erases && forall k :: k in writes ==> k in data
    ensures AllLive(Overlay(below, data)) && Overlay(Overlay(below, data), data) == Overlay(below, data)
  {
  }

  lemma NothingCached(below: View)
    requires AllLive(below)
    ensures Overlay(below, map[]) == below
  {
  }

  lemma OverlayFind(below: View, data: View, key: Key)
    ensures Find(Overlay(below, data), key) == if key in data then Find(data, key) else Find(below, key)
    ensures AllLive(Overlay(below, data))
  {
  }

  /** A write to the base shows through exactly if the overlay holds no entry for the key, or holds
      what is written: this is why a base must not be written while a child holds data. */
  lemma BaseWriteShowsThrough(below: View, data: View, key: Key, value: Value)
    ensures Overlay(SetIn(below, key, value), data) == SetIn(Overlay(below, data), key, value) <==>
            key !in data || Find(data, key) == (if IsEmpty(value) then None else Some(value))
  {
    hide Overlay;
    OverlayFind(SetIn(below, key, value), data, key);
    FindSetIn(below, key, value, key);
    FindSetIn(Overlay(below, data), key, value, key);
    if key !in data || Find(data, key) == (if IsEmpty(value) then None else Some(value)) {
      forall k ensures Find(Overlay(SetIn(below, key, value), data), k) == Find(SetIn(Overlay(below, data), key, value), k) {
        OverlayFind(SetIn(below, key, value), data, k);
        OverlayFind(below, data, k);
        FindSetIn(below, key, value, k);
        FindSetIn(Overlay(below, data), key, value, k);
      }
      OverlayFind(below, data, key);
      SameFindings(Overlay(SetIn(below, key, value), data), SetIn(Overlay(below, data), key, value));
    }
  }

  lemma FindSetIn(m: View, key: Key, value: Value, k: Key)
    ensures Find(SetIn(m, key, value), k) ==
            if k != key then Find(m, k) else if IsEmpty(value) then None else Some(value)
  {
  }

  /** Live maps with the same findings are equal. */
  lemma SameFindings(a: View, b: View)
    requires AllLive(a) && AllLive(b) && forall k :: Find(a, k) == Find(b, k)
    ensures a == b
  {
    forall k ensures (k in a <==> k in b) && (k in a ==> a[k] == b[k]) {
      assert Find(a, k) == Find(b, k);
    }
  }

  // ---------------------------------------------------------------- size accounting

  const WORD := 0x1_0000_0000

  /** Serialized sizes of keys and values. */
  datatype Sizes = Sizes(ofKey: Key -> nat, ofValue: Value -> nat)

  ghost function Total(sizes: Sizes, m: View): nat {
    if m == map[] then 0
    else
      var k :| k in m;
      sizes.ofKey(k) + sizes.ofValue(m[k]) + Total(sizes, m - {k})
  }

  lemma {:induction false} TotalWithout(sizes: Sizes, m: View, key: Key)
    requires key in m
    ensures Total(sizes, m) == sizes.ofKey(key) + sizes.ofValue(m[key]) + Total(sizes, m - {key})
  {
    var k :| k in m && Total(sizes, m) == sizes.ofKey(k) + sizes.ofValue(m[k]) + Total(sizes, m - {k});
    if k != key {
      TotalWithout(sizes, m - {k}, key);
      TotalWithout(sizes, m - {key}, k);
      assert m - {k} - {key} == m - {key} - {k};
    }
  }

  lemma TotalAdd(sizes: Sizes, m: View, key: Key, value: Value)
    requires key !in m
    ensures Total(sizes, m[key := value]) == Total(sizes, m) + sizes.ofKey(key) + sizes.ofValue(value)
  {
    TotalWithout(sizes, m[key := value], key);
    assert m[key := value] - {key} == m;
  }

  lemma TotalReplace(sizes: Sizes, m: View, key: Key, value: Value)
    requires key in m
    ensures Total(sizes, m[key := value]) + sizes.ofValue(m[key]) == Total(sizes, m) + sizes.ofValue(value)
  {
    TotalWithout(sizes, m, key);
    TotalWithout(sizes, m[key := value], key);
    assert m[key := value] - {key} == m - {key};
  }

  /** IncDataSize, in 32-bit arithmetic. */
  function IncSize(size: nat, n: nat): nat { (size + n) % WORD }

  function DecSize(size: nat, n: nat): nat { if size > n % WORD then size - n % WORD else 0 }

  /** UpdateDataSize adds the new size before it takes the old one away. */
  function UpdateSize(size: nat, old_: nat, new_: nat): nat { DecSize(IncSize(size, new_), old_) }

  lemma IncSizeExact(size: nat, k: nat, v: nat)
    ensures IncSize(IncSize(size, k), v) == size + k + v <==> size + k + v < WORD
  {
  }

  ghost predicate FitWord(sizes: Sizes) {
    (forall k :: sizes.ofKey(k) < 0x1_0000_0000) && (forall v :: sizes.ofValue(v) < 0x1_0000_0000)
  }

  /** The counter is right after an update exactly if the sum, with the old and the new value both
      counted, fits in 32 bits: a sum that fits before and after is not enough. */
  lemma UpdateSizeExact(size: nat, old_: nat, new_: nat)
    requires old_ <= size < 0x1_0000_0000 && new_ < 0x1_0000_0000
    ensures UpdateSize(size, old_, new_) == size - old_ + new_ <==> size + new_ < 0x1_0000_0000
  {
  }

  /** Bytes that writing a value adds to the counter, and takes off it. */
  ghost function Added(sizes: Sizes, m: View, key: Key, value: Value): nat {
    sizes.ofValue(value) + (if key in m then 0 else sizes.ofKey(key))
  }

  ghost function Taken(sizes: Sizes, m: View, key: Key): nat {
    if key in m then sizes.ofValue(m[key]) else 0
  }

  /** The counter after a new entry is right exactly if the new sum fits in 32 bits. */
  lemma AddSizes(sizes: Sizes, m: View, key: Key, value: Value, size: nat)
    requires key !in m
    ensures Total(sizes, m[key := value]) == Total(sizes, m) + sizes.ofKey(key) + sizes.ofValue(value)
    ensures size == Total(sizes, m) ==>
              (IncSize(IncSize(size, sizes.ofKey(key)), sizes.ofValue(value)) == Total(sizes, m[key := value]) <==>
               Total(sizes, m[key := value]) < WORD)
  {
    TotalAdd(sizes, m, key, value);
    IncSizeExact(size, sizes.ofKey(key), sizes.ofValue(value));
  }

  /** The counter after a replacement is right exactly if the old sum and the new value fit in 32 bits
      together. */
  lemma ReplaceSizes(sizes: Sizes, m: View, key: Key, value: Value, size: nat)
    requires key in m && FitWord(sizes)
    ensures Total(sizes, m[key := value]) + sizes.ofValue(m[key]) == Total(sizes, m) + sizes.ofValue(value)
    ensures size == Total(sizes, m) < WORD ==>
              (UpdateSize(size, sizes.ofValue(m[key]), sizes.ofValue(value)) == Total(sizes, m[key := value]) <==>
               Total(sizes, m) + sizes.ofValue(value) < WORD)
  {
    TotalReplace(sizes, m, key, value);
    TotalWithout(sizes, m, key);
    if size == Total(sizes, m) < WORD { UpdateSizeExact(size, sizes.ofValue(m[key]), sizes.ofValue(value)); }
  }

  // ---------------------------------------------------------------- runs of changes to a counter

  /** What a cache holds, and its size counter. */
  datatype Counter = Counter(data: View, size: nat)

  /** The changes that operations make: a read-through copy, a write, a tombstone over an entry (EraseData)
      and clearing. */
  datatype Change = Copy(key: Key, value: Value) | Write(key: Key, value: Value) | Bury(key: Key) | Empty

  ghost predicate Possible(data: View, ch: Change) {
    (ch.Copy? ==> ch.key !in data) && (ch.Bury? ==> ch.key in data)
  }

  function Changed(data: View, ch: Change): View {
    match ch
    case Copy(k, v) => data[k := v]
    case Write(k, v) => data[k := v]
    case Bury(k) => data[k := NO_VALUE]
    case Empty => map[]
  }

  /** The counter after a change, in the order of the code's additions and subtractions. */
  function SizeAfter(sizes: Sizes, c: Counter, ch: Change): nat {
    match ch
    case Copy(k, v) => IncSize(IncSize(c.size, sizes.ofKey(k)), sizes.ofValue(v))
    case Write(k, v) =>
      if k in c.data then UpdateSize(c.size, sizes.ofValue(c.data[k]), sizes.ofValue(v))
      else IncSize(IncSize(c.size, sizes.ofKey(k)), sizes.ofValue(v))
    case Bury(k) =>
      if k in c.data then IncSize(DecSize(c.size, sizes.ofValue(c.data[k])), sizes.ofValue(NO_VALUE)) else c.size
    case Empty => 0
  }

  /** Caches over other caches do not count. */
  function Act(sizes: Sizes, counts: bool, c: Counter, ch: Change): Counter {
    Counter(Changed(c.data, ch), if counts then SizeAfter(sizes, c, ch) else c.size)
  }

  /** The bytes that the change handles at once fit in 32 bits: a write counts the old and the new value
      together. */
  ghost predicate Fits(sizes: Sizes, data: View, ch: Change) {
    match ch
    case Copy(k, v) => Total(sizes, data[k := v]) < 0x1_0000_0000
    case Write(k, v) => Total(sizes, data) + Added(sizes, data, k, v) < 0x1_0000_0000
    case Bury(k) => Total(sizes, data[k := NO_VALUE]) < 0x1_0000_0000
    case Empty => true
  }

  ghost predicate Exact(sizes: Sizes, c: Counter) { c.size == Total(sizes, c.data) < 0x1_0000_0000 }

  /** One change keeps the counter exact if and only if it fits. */
  lemma ChangeExact(sizes: Sizes, c: Counter, ch: Change)
    requires FitWord(sizes) && Possible(c.data, ch) && Exact(sizes, c)
    ensures Exact(sizes, Act(sizes, true, c, ch)) <==> Fits(sizes, c.data, ch)
  {
    hide Total;
    match ch
    case Copy(k, v) => AddSizes(sizes, c.data, k, v, c.size);
    case Write(k, v) =>
      if k in c.data {
        ReplaceSizes(sizes, c.data, k, v, c.size);
        TotalWithout(sizes, c.data, k);
      } else {
        AddSizes(sizes, c.data, k, v, c.size);
      }
    case Bury(k) =>
      TotalWithout(sizes, c.data, k);
      TotalReplace(sizes, c.data, k, NO_VALUE);
    case Empty => EmptyTotal(sizes);
  }

  lemma EmptyTotal(sizes: Sizes)
    ensures Total(sizes, map[]) == 0
  {
  }

  /** The counter after a run of changes. */
  function RunOf(sizes: Sizes, counts: bool, c: Counter, changes: seq<Change>): Counter {
    if changes == [] then c
    else
      var n := |changes| - 1;
      Act(sizes, counts, RunOf(sizes, counts, c, changes[..n]), changes[n])
  }

  ghost predicate AllPossible(sizes: Sizes, c: Counter, changes: seq<Change>) {
    forall i :: 0 <= i < |changes| ==> Possible(RunOf(sizes, true, c, changes[..i]).data, changes[i])
  }

  ghost predicate AllFit(sizes: Sizes, c: Counter, changes: seq<Change>) {
    forall i :: 0 <= i < |changes| ==> Fits(sizes, RunOf(sizes, true, c, changes[..i]).data, changes[i])
  }

  /** Over every run of changes, the counter of a cache over the database is exact at all times if and only
      if every change fits. */
  lemma {:induction false} SizeExactOverRuns(sizes: Sizes, c: Counter, changes: seq<Change>)
    requires FitWord(sizes) && AllPossible(sizes, c, changes) && Exact(sizes, c)
    ensures AllFit(sizes, c, changes) <==>
            forall i :: 0 <= i <= |changes| ==> Exact(sizes, RunOf(sizes, true, c, changes[..i]))
  {
    hide Fits, Exact, Act;
    if changes == [] {
      assert changes[..0] == [];
    } else {
      var n := |changes| - 1;
      var before := changes[..n];
      assert changes[..n+1] == changes;
      assert forall i :: 0 <= i <= n ==> before[..i] == changes[..i];
      assert AllPossible(sizes, c, before);
      SizeExactOverRuns(sizes, c, before);
      if AllFit(sizes, c, before) {
        assert Exact(sizes, RunOf(sizes, true, c, before[..n]));
        ChangeExact(sizes, RunOf(sizes, true, c, before), changes[n]);
      }
      FitsSplit(sizes, c, changes);
    }
  }

  lemma FitsSplit(sizes: Sizes, c: Counter, changes: seq<Change>)
    requires changes != []
    ensures var n := |changes| - 1;
      AllFit(sizes, c, changes) <==>
      AllFit(sizes, c, changes[..n]) && Fits(sizes, RunOf(sizes, true, c, changes[..n]).data, changes[n])
  {
    hide Fits;
    var n := |changes| - 1;
    assert forall i :: 0 <= i < n ==> changes[..n][..i] == changes[..i];
    if AllFit(sizes, c, changes[..n]) && Fits(sizes, RunOf(sizes, true, c, changes[..n]).data, changes[n]) {
      forall i | 0 <= i < |changes| ensures Fits(sizes, RunOf(sizes, true, c, changes[..i]).data, changes[i]) {
        if i < n { assert changes[..n][i] == changes[i]; }
      }
    }
    if AllFit(sizes, c, changes) {
      forall i | 0 <= i < n ensures Fits(sizes, RunOf(sizes, true, c, changes[..n][..i]).data, changes[..n][i]) {
        assert changes[..n][i] == changes[i];
      }
    }
  }

  /** An example: sums of 2^32 - 1 before and after, and the counter reads 0 after a value of ten bytes
      is written over one of ten bytes. */
  lemma OverwriteLosesSize()
    ensures var sizes, data := Sizes(k => WORD - 11, v => 10), map[1.0 := Value([1], [])];
      && FitWord(sizes) && Exact(sizes, Counter(data, WORD - 1))
      && SizeAfter(sizes, Counter(data, WORD - 1), Write(1.0, Value([2], []))) == 0
      && Total(sizes, Changed(data, Write(1.0, Value([2], [])))) == WORD - 1
  {
    var sizes, data := Sizes(k => WORD - 11, v => 10), map[1.0 := Value([1], [])];
    var key: Key := 1.0;
    EmptyTotal(sizes);
    TotalWithout(sizes, data, key);
    assert data - {key} == map[];
    TotalReplace(sizes, data, key, Value([2], []));
  }

  lemma BuryExact(sizes: Sizes, c: Counter, key: Key)
    requires FitWord(sizes) && key in c.data
    ensures c.size == Total(sizes, c.data) < WORD ==>
              (SizeAfter(sizes, c, Bury(key)) == Total(sizes, c.data[key := NO_VALUE]) <==>
               Total(sizes, c.data[key := NO_VALUE]) < WORD)
  {
    if c.size == Total(sizes, c.data) < WORD {
      TotalWithout(sizes, c.data, key);
      TotalReplace(sizes, c.data, key, NO_VALUE);
    }
  }

  /** Looking a key up leaves the counter alone or copies one entry. */
  ghost predicate Looked(sizes: Sizes, counts: bool, was: Counter, now: Counter, key: Key) {
    || now == was
    || (key !in was.data && key in now.data && now == Act(sizes, counts, was, Copy(key, now.data[key])))
  }

  /** The writes that undoing a list of operations makes, the last operation first. */
  function UndoWrites(logs: seq<OpLog>): (r: seq<Change>)
    ensures |r| == |logs|
  {
    seq(|logs|, j requires 0 <= j < |logs| => Write(logs[|logs|-1-j].key, logs[|logs|-1-j].oldValue))
  }

  /** The writes that storing the items makes. */
  function WritesOf(items: View, order: seq<Key>): (r: seq<Change>)
    requires forall j :: 0 <= j < |order| ==> order[j] in items
    ensures |r| == |order|
  {
    seq(|order|, j requires 0 <= j < |order| => Write(order[j], items[order[j]]))
  }

  /** The keys in the order of a std::map. */
  ghost predicate Ascending(order: seq<Key>, keys: set<Key>) {
    && (forall i, j :: 0 <= i < j < |order| ==> order[i] < order[j])
    && (forall k :: k in order <==> k in keys)
  }

  /** One more change of a run. */
  lemma RunStep(sizes: Sizes, counts: bool, c: Counter, changes: seq<Change>, n: nat)
    requires n < |changes|
    ensures RunOf(sizes, counts, c, changes[..n+1]) == Act(sizes, counts, RunOf(sizes, counts, c, changes[..n]), changes[n])
    ensures RunOf(sizes, counts, c, changes[..0]) == c && changes[..|changes|] == changes
  {
    assert changes[..n+1][..n] == changes[..n];
  }

  /** Writes may follow each other in any way; if all fit, the counter stays exact. */
  lemma WritesExact(sizes: Sizes, c: Counter, changes: seq<Change>)
    requires FitWord(sizes) && Exact(sizes, c) && forall i :: 0 <= i < |changes| ==> changes[i].Write?
    ensures AllFit(sizes, c, changes) ==> Exact(sizes, RunOf(sizes, true, c, changes))
  {
    hide Exact, RunOf, Fits;
    SizeExactOverRuns(sizes, c, changes);
    if AllFit(sizes, c, changes) {
      assert Exact(sizes, RunOf(sizes, true, c, changes[..|changes|]));
      assert changes[..|changes|] == changes;
    }
  }

  /** If the changes fit, an exact counter stays exact. */
  ghost predicate StaysExact(sizes: Sizes, counts: bool, c: Counter, changes: seq<Change>, c': Counter) {
    counts && Exact(sizes, c) && AllFit(sizes, c, changes) ==> Exact(sizes, c')
  }

  lemma WritesStayExact(sizes: Sizes, counts: bool, c: Counter, changes: seq<Change>, c': Counter)
    requires FitWord(sizes) && c' == RunOf(sizes, counts, c, changes) && forall i :: 0 <= i < |changes| ==> changes[i].Write?
    ensures StaysExact(sizes, counts, c, changes, c')
  {
    hide Exact, AllFit;
    if counts && Exact(sizes, c) { WritesExact(sizes, c, changes); }
  }

  lemma FlushStaysExact(sizes: Sizes, counts: bool, c: Counter, items: View, order: seq<Key>)
    requires FitWord(sizes) && Ascending(order, items.Keys)
    ensures (forall j :: 0 <= j < |order| ==> order[j] in items) &&
            StaysExact(sizes, counts, c, WritesOf(items, order), RunOf(sizes, counts, c, WritesOf(items, order)))
  {
    WritesStayExact(sizes, counts, c, WritesOf(items, order), RunOf(sizes, counts, c, WritesOf(items, order)));
  }

  /** The writes of a flush fit if what the base holds and what the child holds do together. */
  lemma FlushFits(sizes: Sizes, c: Counter, items: View, order: seq<Key>)
    requires Ascending(order, items.Keys) && Total(sizes, c.data) + Total(sizes, items) < WORD
    ensures AllFit(sizes, c, WritesOf(items, order))
  {
    var changes := WritesOf(items, order);
    forall i | 0 <= i < |changes| ensures Fits(sizes, RunOf(sizes, true, c, changes[..i]).data, changes[i]) {
      OneFlushFits(sizes, c, items, order, i);
    }
  }

  /** The items whose keys come first. */
  ghost function Part(items: View, order: seq<Key>): View {
    map k | k in items && k in order :: items[k]
  }

  lemma PartMore(items: View, order: seq<Key>, i: nat)
    requires i < |order| && order[i] in items
    ensures Part(items, order[..i+1]) == Part(items, order[..i])[order[i] := items[order[i]]]
  {
    assert order[..i+1] == order[..i] + [order[i]];
  }

  lemma PartIsPart(items: View, order: seq<Key>, i: nat)
    requires Ascending(order, items.Keys) && i < |order|
    ensures order[i] in items && order[i] !in Part(items, order[..i])
    ensures forall k :: k in Part(items, order[..i+1]) ==> k in items && Part(items, order[..i+1])[k] == items[k]
  {
    assert order[i] in order;
  }

  lemma OneFlushFits(sizes: Sizes, c: Counter, items: View, order: seq<Key>, i: nat)
    requires Ascending(order, items.Keys) && Total(sizes, c.data) + Total(sizes, items) < WORD && i < |order|
    ensures Fits(sizes, RunOf(sizes, true, c, WritesOf(items, order)[..i]).data, WritesOf(items, order)[i])
  {
    PartIsPart(items, order, i);
    var changes, key, done := WritesOf(items, order), order[i], Part(items, order[..i]);
    assert changes[i] == Write(key, items[key]);
    hide Total, Ascending, Part, WritesOf, RunOf;
    assert forall j :: 0 <= j < |order| ==> order[j] in items by { AscendingInside(items, order); }
    WrittenSoFar(sizes, c, items, order, i);
    TotalMerge(sizes, c.data, done);
    TotalAdd(sizes, done, key, items[key]);
    PartMore(items, order, i);
    TotalPart(sizes, Part(items, order[..i+1]), items);
  }

  lemma AscendingInside(items: View, order: seq<Key>)
    requires Ascending(order, items.Keys)
    ensures forall j :: 0 <= j < |order| ==> order[j] in items
  {
  }

  lemma {:induction false} WrittenSoFar(sizes: Sizes, c: Counter, items: View, order: seq<Key>, i: nat)
    requires (forall j :: 0 <= j < |order| ==> order[j] in items) && i <= |order|
    ensures RunOf(sizes, true, c, WritesOf(items, order)[..i]).data == c.data + Part(items, order[..i])
  {
    var changes := WritesOf(items, order);
    if i > 0 {
      assert changes[i-1] == Write(order[i-1], items[order[i-1]]);
      hide Part, RunOf, WritesOf;
      WrittenSoFar(sizes, c, items, order, i - 1);
      RunStep(sizes, true, c, changes, i - 1);
      PartMore(items, order, i - 1);
      MergePut(c.data, Part(items, order[..i-1]), order[i-1], items[order[i-1]]);
    }
  }

  lemma MergePut(a: View, b: View, k: Key, v: Value)
    ensures (a + b)[k := v] == a + b[k := v]
  {
  }

  lemma {:induction false} TotalMerge(sizes: Sizes, a: View, b: View)
    ensures Total(sizes, a + b) <= Total(sizes, a) + Total(sizes, b)
    decreases |b|
  {
    hide Total;
    if b == map[] {
      assert a + b == a;
    } else {
      var k :| k in b;
      TotalMerge(sizes, a, b - {k});
      TotalWithout(sizes, b, k);
      WithBack(a, b, k);
      TotalPut(sizes, a + (b - {k}), k, b[k]);
    }
  }

  lemma WithBack(a: View, b: View, k: Key)
    requires k in b
    ensures (a + (b - {k}))[k := b[k]] == a + b
  {
  }

  lemma TotalPut(sizes: Sizes, m: View, key: Key, value: Value)
    ensures Total(sizes, m[key := value]) <= Total(sizes, m) + sizes.ofKey(key) + sizes.ofValue(value)
  {
    if key in m { TotalReplace(sizes, m, key, value); } else { TotalAdd(sizes, m, key, value); }
  }

  lemma {:induction false} TotalPart(sizes: Sizes, part: View, m: View)
    requires forall k :: k in part ==> k in m && m[k] == part[k]
    ensures Total(sizes, part) <= Total(sizes, m)
    decreases |part|
  {
    if part != map[] {
      var k :| k in part;
      hide Total;
      TotalWithout(sizes, part, k);
      TotalWithout(sizes, m, k);
      TotalPart(sizes, part - {k}, m - {k});
    }
  }

  lemma StartAscending(keys: set<Key>)
    ensures Ascending([], keys - keys)
  {
  }

  lemma OneMoreKey(order: seq<Key>, keys: set<Key>, left: set<Key>, key: Key)
    requires left <= keys && Ascending(order, keys - left) && key in left
    requires forall m :: m in left ==> key <= m
    requires forall m, k :: m in left && k in order ==> k < m
    ensures Ascending(order + [key], keys - (left - {key}))
    ensures forall m, k :: m in left - {key} && k in order + [key] ==> k < m
  {
    forall i, j | 0 <= i < j < |order + [key]| ensures (order + [key])[i] < (order + [key])[j] {
      if j == |order| { assert order[i] in order; }
    }
    forall k ensures k in order + [key] <==> k in keys - (left - {key}) {
    }
  }

  lemma OneMoreWrite(sizes: Sizes, counts: bool, c: Counter, items: View, order: seq<Key>, key: Key)
    requires key in items && forall j :: 0 <= j < |order| ==> order[j] in items
    ensures RunOf(sizes, counts, c, WritesOf(items, order + [key])) ==
            Act(sizes, counts, RunOf(sizes, counts, c, WritesOf(items, order)), Write(key, items[key]))
  {
    var changes := WritesOf(items, order + [key]);
    assert changes[..|order|] == WritesOf(items, order);
  }

  method FirstKey(keys: set<Key>) returns (k: Key)
    requires keys != {}
    ensures k in keys && forall m :: m in keys ==> k <= m
  {
    k :| k in keys;
    var rest := keys - {k};
    while rest != {}
      invariant rest <= keys && k in keys && forall m :: m in keys - rest ==> k <= m
    {
      var m :| m in rest;
      ghost var done, was := keys - rest, k;
      rest := rest - {m};
      if m < k {
        k := m;
      }
      assert forall x :: x in keys - rest ==> x in done || x == m;
    }
    assert keys - rest == keys;
  }

  // ---------------------------------------------------------------- the database and the operation logs

  /** The part of the database that holds one prefix. */
  class Database {
    var table: View

    ghost predicate Valid()
      reads this
    {
      AllLive(table) && EMPTY_KEY !in table
    }

    constructor ()
      ensures Valid() && table == map[]
    {
      table := map[];
    }

    /** A batch writes some keys and erases others. */
    method WriteBatch(writes: View, erases: set<Key>)
      requires Valid() && AllLive(writes) && EMPTY_KEY !in writes && writes.Keys !! erases
      modifies this
      ensures Valid() && table == (old(table) - erases) + writes
    {
      table := (table - erases) + writes;
    }
  }

  /** One logged operation: the value the key had before. */
  datatype OpLog = OpLog(key: Key, oldValue: Value)

  type LogMap = map<nat, seq<OpLog>>

  function LogsOf(logs: LogMap, prefix: nat): seq<OpLog> {
    if prefix in logs then logs[prefix] else []
  }

  function Logged(logs: LogMap, prefix: nat, log: OpLog): LogMap {
    logs[prefix := LogsOf(logs, prefix) + [log]]
  }

  /** EraseData logs what it erases. */
  function EraseLogged(logs: LogMap, prefix: nat, view: View, key: Key): LogMap {
    if Find(view, key).Some? then Logged(logs, prefix, OpLog(key, view[key])) else logs
  }

  /** Undoing a list of operations, the last one first. */
  function Undone(view: View, logs: seq<OpLog>): View
    decreases |logs|
  {
    if logs == [] then view
    else
      var n := |logs| - 1;
      Undone(SetIn(view, logs[n].key, logs[n].oldValue), logs[..n])
  }

  lemma UndoneStep(view: View, logs: seq<OpLog>, n: nat)
    requires n < |logs|
    ensures Undone(view, logs[..n+1]) == Undone(SetIn(view, logs[n].key, logs[n].oldValue), logs[..n])
  {
    assert logs[..n+1][..n] == logs[..n];
  }

  lemma UndoneNone(view: View)
    ensures Undone(view, []) == view
  {
  }

  class OpLogMap {
    var logs: LogMap

    constructor ()
      ensures logs == map[]
    {
      logs := map[];
    }

    method AddOpLog(prefix: nat, log: OpLog)
      modifies this
      ensures logs == Logged(old(logs), prefix, log)
    {
      logs := logs[prefix := LogsOf(logs, prefix) + [log]];
    }
  }

  // ---------------------------------------------------------------- the cache

  class Cache {
    const prefix: nat
    const base: Cache?
    const db: Database?
    const opLogMap: OpLogMap?
    const calcSize: bool
    const sizes: Sizes
    var data: View             // mapData: live values and tombstones
    var size: nat              // uint32_t

    ghost const Chain: set<Cache>     // this cache and all below it
    ghost const disk: Database        // the database at the bottom

    /** The chain is well linked. */
    ghost predicate Linked()
      decreases Chain
    {
      && FitWord(sizes) && this in Chain && (base == null <==> db != null)
      && (base == null ==> disk == db && Chain == {this})
      && (base != null ==>
            this !in base.Chain && Chain == {this} + base.Chain && disk == base.disk && base.Linked())
    }

    ghost predicate Valid()
      reads this, Chain, disk
    {
      && Linked() && disk.Valid()
      && (forall c :: c in Chain ==> EMPTY_KEY !in c.data)
    }

    /** What the caches and the database below show. */
    ghost function Below(): View
      requires Linked()
      reads Chain, disk
      decreases Chain, 0
    {
      if base != null then base.View() else disk.table
    }

    ghost function View(): View
      requires Linked()
      reads this, Chain, disk
      decreases Chain, 1
    {
      Overlay(Below(), data)
    }

    ghost function State(): Counter
      reads this
    {
      Counter(data, size)
    }

    /** The counter is the serialized size of everything cached. */
    ghost predicate SizeExact()
      reads this
    {
      calcSize ==> size == Total(sizes, data)
    }

    /** A cache over a database; only these count sizes. */
    constructor OverDatabase(database: Database, prefix: nat, log: OpLogMap?, sizes: Sizes)
      requires database.Valid()
      requires FitWord(sizes)
      ensures Valid() && base == null && disk == database && Chain == {this} && opLogMap == log
      ensures View() == database.table && data == map[] && SizeExact()
    {
      this.prefix, this.base, this.db, this.opLogMap, this.sizes := prefix, null, database, log, sizes;
      calcSize := true;
      data, size := map[], 0;
      Chain, disk := {this}, database;
      new;
      NothingCached(database.table);
    }

    constructor OverCache(below: Cache, prefix: nat, log: OpLogMap?, sizes: Sizes)
      requires below.Valid()
      requires FitWord(sizes)
      ensures Valid() && base == below && disk == below.disk && Chain == {this} + below.Chain && opLogMap == log
      ensures View() == below.View() && data == map[] && SizeExact()
    {
      this.prefix, this.base, this.db, this.opLogMap, this.sizes := prefix, below, null, log, sizes;
      calcSize := false;
      data, size := map[], 0;
      Chain, disk := {this} + below.Chain, below.disk;
      new;
      below.ViewIsLive();
      NothingCached(below.View());
    }

    lemma {:induction false} ViewIsLive()
      requires Linked() && disk.Valid()
      ensures AllLive(View()) && AllLive(Below())
      decreases Chain
    {
      if base != null { base.ViewIsLive(); }
    }

    /** Everything in the chain is itself well linked, inside the chain, on the same database. */
    lemma {:induction false} ChainLinked(c: Cache)
      requires Linked() && c in Chain
      ensures c.Linked() && c.Chain <= Chain && c.disk == disk && c in c.Chain
      ensures base != null && c != this ==> c in base.Chain
      ensures this in Chain
      decreases Chain
    {
      if base != null && c != this { base.ChainLinked(c); }
    }

    /** AddDataToMap. */
    method AddDataToMap(key: Key, value: Value)
      modifies this`data, this`size
      requires key !in data && FitWord(sizes)
      ensures data == old(data)[key := value]
      ensures State() == Act(sizes, calcSize, old(State()), Copy(key, value))
      ensures old(SizeExact()) && Total(sizes, data) < WORD ==> SizeExact()
    {
      hide Total, IncSize;
      AddSizes(sizes, data, key, value, size);
      data := data[key := value];
      if calcSize {
        size := IncSize(size, sizes.ofKey(key));
        size := IncSize(size, sizes.ofValue(value));
      }
    }

    /** GetDataIt: look here, then below, and keep a copy of what is found. No view in the chain
        changes. */
    method GetDataIt(key: Key) returns (found: bool)
      requires Valid() && key != EMPTY_KEY
      modifies Chain
      ensures Valid() && View() == old(View()) && Below() == old(Below())
      ensures forall c :: c in Chain ==> c.Linked() && c.View() == old(c.View())
      ensures disk.table == old(disk.table)
      ensures found <==> key in data
      ensures data == old(data) || (key !in old(data) && key in data && data == old(data)[key := data[key]])
      ensures Find(data, key) == Find(View(), key)
      ensures forall c :: c in Chain && old(c.SizeExact()) && Total(c.sizes, c.data) < WORD ==> c.SizeExact()
      ensures forall c :: c in Chain ==> Looked(c.sizes, c.calcSize, old(c.State()), c.State(), key)
      decreases Chain
    {
      hide Overlay, Total, AllLive, IncSize, Act;
      if key in data {
        OverlayFind(Below(), data, key);
        forall c | c in Chain ensures c.Linked() { ChainLinked(c); }
        return true;
      }
      if base != null {
        forall c | c in base.Chain ensures c.Linked() && c.Chain <= base.Chain { base.ChainLinked(c); }
        found := base.GetDataIt(key);
        forall c | c in Chain && c != this ensures c.View() == old(c.View()) { ChainLinked(c); }
        if found {
          CopyShowsNothing(Below(), data, key, base.data[key]);
          AddDataToMap(key, base.data[key]);
        }
      } else {
        found := key in db.table;
        if found {
          CopyShowsNothing(db.table, data, key, db.table[key]);
          AddDataToMap(key, db.table[key]);
        }
      }
      OverlayFind(Below(), data, key);
    }

    method GetData(key: Key) returns (r: Option<Value>)
      requires Valid()
      modifies Chain
      ensures Valid() && forall c :: c in Chain ==> c.Linked() && c.View() == old(c.View())
      ensures disk.table == old(disk.table)
      ensures r == if key == EMPTY_KEY then None else Find(View(), key)
      ensures forall c :: c in Chain ==> Looked(c.sizes, c.calcSize, old(c.State()), c.State(), key)
    {
      forall c | c in Chain ensures c.Linked() { ChainLinked(c); }
      if key == EMPTY_KEY {
        return None;
      }
      var found := GetDataIt(key);
      r := if found && !IsEmpty(data[key]) then Some(data[key]) else None;
    }

    method HasData(key: Key) returns (r: bool)
      requires Valid()
      modifies Chain
      ensures Valid() && forall c :: c in Chain ==> c.Linked() && c.View() == old(c.View())
      ensures disk.table == old(disk.table)
      ensures r <==> key != EMPTY_KEY && Find(View(), key).Some?
      ensures forall c :: c in Chain ==> Looked(c.sizes, c.calcSize, old(c.State()), c.State(), key)
    {
      forall c | c in Chain ensures c.Linked() { ChainLinked(c); }
      if key == EMPTY_KEY {
        return false;
      }
      var found := GetDataIt(key);
      r := found && !IsEmpty(data[key]);
    }

    /** Changing this cache's own entries leaves the caches below alone. */
    twostate lemma OnlyMineChanged()
      requires old(Valid()) && forall c :: c in Chain && c != this ==> unchanged(c)
      requires unchanged(disk) && EMPTY_KEY !in data
      ensures Valid() && Below() == old(Below())
      ensures forall c :: c in Chain ==> c.Linked()
      ensures forall c :: c in Chain && c != this ==> c.View() == old(c.View())
    {
      forall c | c in Chain ensures c.Linked() && c.Chain <= Chain && (c != this ==> this !in c.Chain) && c.disk == disk {
        ChainLinked(c);
        if c != this { base.ChainLinked(c); }
      }
      if base != null { assert base.Linked() && base in base.Chain; }
    }

    /** SetData. The log keeps what the key had before. */
    method SetData(key: Key, value: Value) returns (ok: bool, ghost before: Value, ghost looked: Counter)
      requires Valid()
      modifies Chain, opLogMap
      ensures Valid() && ok == (key != EMPTY_KEY) && disk.table == old(disk.table)
      ensures View() == if ok then SetIn(old(View()), key, value) else old(View())
      ensures forall c :: c in Chain ==> c.Linked() && (c != this ==> c.View() == old(c.View()))
      ensures ok ==> Find(old(View()), key) == if IsEmpty(before) then None else Some(before)
      ensures opLogMap != null && ok ==> opLogMap.logs == Logged(old(opLogMap.logs), prefix, OpLog(key, before))
      ensures opLogMap != null && !ok ==> opLogMap.logs == old(opLogMap.logs)
      // a lookup, then a write
      ensures Looked(sizes, calcSize, old(State()), looked, key)
      ensures State() == if ok then Act(sizes, calcSize, looked, Write(key, value)) else looked
      ensures forall c :: c in Chain && c != this ==> Looked(c.sizes, c.calcSize, old(c.State()), c.State(), key)
      ensures old(SizeExact()) && Total(sizes, data) + sizes.ofValue(before) < WORD ==> SizeExact()
      ensures calcSize && key in old(data) && key != EMPTY_KEY && old(SizeExact()) && Total(sizes, old(data)) < WORD ==>
                (SizeExact() <==> Total(sizes, old(data)) + sizes.ofValue(value) < WORD)
    {
      hide Overlay, AllLive, Act, Total, IncSize, UpdateSize;
      before, looked := NO_VALUE, State();
      forall c | c in Chain ensures c.Linked() { ChainLinked(c); }
      if key == EMPTY_KEY {
        return false, NO_VALUE, State();
      }
      var found := GetDataIt(key);
      looked := State();
      before := if found then data[key] else NO_VALUE;
      assert old(SizeExact()) && Total(sizes, data) < WORD ==> SizeExact() by { assert this in Chain; }
      label looked:
      SetShows(Below(), data, key, value);
      AddOpLog(key, if found then data[key] else NO_VALUE);
      SetDataToSelf(key, value);
      OnlyMineChanged@looked();
      ok := true;
    }

    /** Write here only: over the entry that is there, or a new one. */
    method SetDataToSelf(key: Key, value: Value)
      requires FitWord(sizes)
      modifies this`data, this`size
      ensures data == old(data)[key := value] && State() == Act(sizes, calcSize, old(State()), Write(key, value))
      ensures old(SizeExact()) && Total(sizes, old(data)) < WORD && calcSize ==>
                (SizeExact() <==> Total(sizes, old(data)) + Added(sizes, old(data), key, value) < WORD)
      ensures Total(sizes, data) + Taken(sizes, old(data), key) == Total(sizes, old(data)) + Added(sizes, old(data), key, value)
      ensures !calcSize ==> SizeExact()
    {
      if key in data {
        ReplaceSizes(sizes, data, key, value, size);
        UpdateDataSize(data[key], value);
        data := data[key := value];
      } else {
        AddSizes(sizes, data, key, value, size);
        AddDataToMap(key, value);
      }
    }

    method AddOpLog(key: Key, before: Value)
      modifies opLogMap
      ensures opLogMap != null ==> opLogMap.logs == Logged(old(opLogMap.logs), prefix, OpLog(key, before))
    {
      if opLogMap != null {
        opLogMap.AddOpLog(prefix, OpLog(key, before));
      }
    }

    method UpdateDataSize(oldValue: Value, newValue: Value)
      modifies this`size
      ensures size == if calcSize then UpdateSize(old(size), sizes.ofValue(oldValue), sizes.ofValue(newValue)) else old(size)
    {
      if calcSize {
        size := IncSize(size, sizes.ofValue(newValue));
        size := DecSize(size, sizes.ofValue(oldValue));
      }
    }

    /** EraseData leaves a tombstone, and logs only if there was something to erase. */
    method EraseData(key: Key) returns (ok: bool, ghost looked: Counter)
      requires Valid()
      modifies Chain, opLogMap
      ensures Valid() && ok == (key != EMPTY_KEY) && disk.table == old(disk.table)
      ensures View() == old(View()) - {key}
      ensures forall c :: c in Chain ==> c.Linked() && (c != this ==> c.View() == old(c.View()))
      ensures opLogMap != null ==> opLogMap.logs == EraseLogged(old(opLogMap.logs), prefix, old(View()), key)
      ensures calcSize && key in old(data) && old(SizeExact()) && Total(sizes, old(data)) < WORD ==>
                (SizeExact() <==> Total(sizes, data) < WORD)
      // a lookup, then a tombstone over what it found
      ensures Looked(sizes, calcSize, old(State()), looked, key)
      ensures State() == if Find(looked.data, key).Some? && ok then Act(sizes, calcSize, looked, Bury(key)) else looked
      ensures forall c :: c in Chain && c != this ==> Looked(c.sizes, c.calcSize, old(c.State()), c.State(), key)
    {
      hide Overlay, AllLive, Total, IncSize, DecSize;
      looked := State();
      forall c | c in Chain ensures c.Linked() { ChainLinked(c); }
      if key == EMPTY_KEY {
        NoEmptyKey();
        return false, State();
      }
      var found := GetDataIt(key);
      looked := State();
      OverlayFind(Below(), data, key);
      label looked:
      if found && !IsEmpty(data[key]) {
        SetShows(Below(), data, key, NO_VALUE);
        BuryExact(sizes, looked, key);
        if calcSize { size := DecSize(size, sizes.ofValue(data[key])); }
        AddOpLog(key, data[key]);
        data := data[key := NO_VALUE];
        if calcSize { size := IncSize(size, sizes.ofValue(NO_VALUE)); }
        OnlyMineChanged@looked();
      }
      ok := true;
    }

    lemma {:induction false} NoEmptyKey()
      requires Valid()
      ensures EMPTY_KEY !in View()
      decreases Chain
    {
      if base != null {
        assert base.Valid() by { assert base.Linked(); }
        base.NoEmptyKey();
      }
    }

    method Clear()
      modifies this`data, this`size
      ensures data == map[] && SizeExact()
    {
      data := map[];
      size := 0;
    }

    /** Flush: the view moves one level down. Neither this cache's view nor those further down change,
        and the base (or the database) shows what this cache showed. */
    method Flush() returns (ghost order: seq<Key>)
      requires Valid()
      modifies this`data, this`size, base, db
      ensures Valid() && data == map[] && SizeExact()
      ensures View() == old(View()) && Below() == old(View())
      ensures forall c :: c in Chain ==> c.Linked()
      ensures base != null ==> forall c :: c in base.Chain && c != base ==> c.View() == old(c.View())
      ensures Ascending(order, old(data).Keys)
      ensures base != null ==>
                base.State() == RunOf(base.sizes, base.calcSize, old(base.State()), WritesOf(old(data), order))
      ensures base != null ==>
                StaysExact(base.sizes, base.calcSize, old(base.State()), WritesOf(old(data), order), base.State())
    {
      hide Overlay, Total, AllLive, SizeExact, Ascending, WritesOf, Act, StaysExact;
      ViewIsLive();
      NothingCached(View());
      if base != null {
        order := FlushToBase();
        label flushed:
        Clear();
        OnlyMineChanged@flushed();
        OthersKept();
      } else {
        order := FlushToDatabase();
        label written:
        Clear();
        OnlyMineChanged@written();
      }
    }

    lemma OthersKept()
      requires Linked() && base != null
      ensures base.Chain <= Chain && this !in base.Chain && base in base.Chain
    {
      assert base.Linked();
    }

    method FlushToBase() returns (ghost order: seq<Key>)
      requires Valid() && base != null
      modifies base`data, base`size
      ensures Ascending(order, data.Keys)
      ensures base.State() == RunOf(base.sizes, base.calcSize, old(base.State()), WritesOf(data, order))
      ensures StaysExact(base.sizes, base.calcSize, old(base.State()), WritesOf(data, order), base.State())
      ensures base.data == old(base.data) + data
      ensures Valid() && base.View() == old(View()) && Below() == old(View())
      ensures forall c :: c in base.Chain && c != base ==> c.Linked() && c.View() == old(c.View())
    {
      hide Overlay, Total, SizeExact, IsEmpty, Ascending, WritesOf, Act, StaysExact;
      assert base.Linked() && base in base.Chain;
      ghost var below, middle := base.Below(), base.data;
      assert base.View() == Overlay(below, middle);
      assert View() == Overlay(Below(), data) && Below() == base.View();
      order := base.StoreAll(data);
      FlushStaysExact(base.sizes, base.calcSize, old(base.State()), data, order);
      FlushShows(below, middle, data);
      base.OnlyMineChanged();
      assert base.View() == Overlay(below, middle + data);
    }

    /** SetDataToSelf for every entry of a child. */
    method StoreAll(items: View) returns (ghost order: seq<Key>)
      requires FitWord(sizes)
      modifies this`data, this`size
      ensures data == old(data) + items
      ensures Ascending(order, items.Keys)
      ensures State() == RunOf(sizes, calcSize, old(State()), WritesOf(items, order))
    {
      hide Total, Act, Ascending, WritesOf;
      StartAscending(items.Keys);
      var keys := items.Keys;
      order := [];
      while keys != {}
        invariant keys <= items.Keys && Ascending(order, items.Keys - keys)
        invariant forall j :: 0 <= j < |order| ==> order[j] in items
        invariant forall m, k :: m in keys && k in order ==> k < m
        invariant data == old(data) + (map k | k in items && k !in keys :: items[k])
        invariant State() == RunOf(sizes, calcSize, old(State()), WritesOf(items, order))
        modifies this`data, this`size
      {
        var key := FirstKey(keys);
        SetDataToSelf(key, items[key]);
        OneMoreKey(order, items.Keys, keys, key);
        OneMoreWrite(sizes, calcSize, old(State()), items, order, key);
        keys, order := keys - {key}, order + [key];
      }
      assert (map k | k in items && k !in keys :: items[k]) == items;
      assert items.Keys - keys == items.Keys;
    }

    method FlushToDatabase() returns (ghost order: seq<Key>)
      requires Valid() && base == null
      modifies db
      ensures Ascending(order, data.Keys)
      ensures Valid() && db.table == old(View()) && Below() == old(View())
    {
      hide Ascending, Overlay, AllLive;
      ViewIsLive();
      StartAscending(data.Keys);
      var writes: View, erases: set<Key> := map[], {};
      var keys := data.Keys;
      order := [];
      while keys != {}
        invariant keys <= data.Keys && Ascending(order, data.Keys - keys)
        invariant forall m, k :: m in keys && k in order ==> k < m
        invariant writes == map k | k in data && k !in keys && !IsEmpty(data[k]) :: data[k]
        invariant erases == set k | k in data && k !in keys && IsEmpty(data[k])
        modifies {}
      {
        var key := FirstKey(keys);
        if IsEmpty(data[key]) {
          erases := erases + {key};
        } else {
          writes := writes[key := data[key]];
        }
        OneMoreKey(order, data.Keys, keys, key);
        keys, order := keys - {key}, order + [key];
      }
      assert data.Keys - keys == data.Keys;
      assert this in Chain && db == disk;
      BatchShows(db.table, data, writes, erases);
      db.WriteBatch(writes, erases);
    }

    /** UndoData: put back what the log kept; not logged itself. */
    method UndoData(log: OpLog)
      requires Valid() && log.key != EMPTY_KEY
      modifies this`data, this`size
      ensures Valid() && View() == SetIn(old(View()), log.key, log.oldValue)
      ensures forall c :: c in Chain ==> c.Linked() && (c != this ==> c.View() == old(c.View()))
      ensures disk.table == old(disk.table)
      ensures State() == Act(sizes, calcSize, old(State()), Write(log.key, log.oldValue))
      ensures calcSize && old(SizeExact()) && Total(sizes, old(data)) < WORD ==>
                (SizeExact() <==> Total(sizes, old(data)) + Added(sizes, old(data), log.key, log.oldValue) < WORD)
    {
      SetShows(Below(), data, log.key, log.oldValue);
      SetDataToSelf(log.key, log.oldValue);
      OnlyMineChanged();
    }

    method UndoDataList(logs: seq<OpLog>)
      requires Valid() && forall i :: 0 <= i < |logs| ==> logs[i].key != EMPTY_KEY
      modifies this`data, this`size
      ensures Valid() && View() == Undone(old(View()), logs)
      ensures forall c :: c in Chain ==> c.Linked() && (c != this ==> c.View() == old(c.View()))
      ensures disk.table == old(disk.table)
      ensures State() == RunOf(sizes, calcSize, old(State()), UndoWrites(logs))
      ensures StaysExact(sizes, calcSize, old(State()), UndoWrites(logs), State())
    {
      hide Overlay, Act, Undone, StaysExact, Total;
      forall c | c in Chain ensures c.Linked() { ChainLinked(c); }
      var n := |logs|;
      assert logs[..n] == logs;
      ghost var writes := UndoWrites(logs);
      while n > 0
        invariant n <= |logs| && Valid() && Undone(View(), logs[..n]) == Undone(old(View()), logs)
        invariant forall c :: c in Chain ==> c.Linked() && (c != this ==> c.View() == old(c.View()))
        invariant disk.table == old(disk.table)
        invariant State() == RunOf(sizes, calcSize, old(State()), writes[..|logs|-n])
        modifies this`data, this`size
      {
        RunStep(sizes, calcSize, old(State()), writes, |logs| - n);
        n := n - 1;
        UndoneStep(View(), logs, n);
        UndoData(logs[n]);
      }
      UndoneNone(View());
      assert writes[..|logs|] == writes;
      WritesStayExact(sizes, calcSize, old(State()), writes, State());
    }
  }
}
