/** Iterating over layered caches (dbiterator.h). An iterator stands for what is left to visit: `Remaining`
    is a map, its least key is the current one, and Next takes that key away. The iterators walk the
    contents the caches had when the iterator was made. */
module CacheIter {
  import opened Slices
  import opened Options
  import opened Caches

  /** The part of a view from a key on. */
  function From(m: View, key: Key, strict: bool): View {
    map k | k in m && (if strict then k > key else k >= key) :: m[k]
  }

  /** What a standard iterator at this key (None is end()) has left. */
  function Rest(m: View, at: Option<Key>): View {
    if at.None? then map[] else From(m, at.value, false)
  }

  lemma FromWithout(m: View, key: Key)
    ensures From(m, key, true) == From(m, key, false) - {key}
  {
  }

  lemma RestLeast(m: View, key: Key)
    requires key in m
    ensures IsLeast(Rest(m, Some(key)), key) && Rest(m, Some(key))[key] == m[key]
  {
  }

  ghost predicate IsLeast(m: View, key: Key) {
    key in m && forall k :: k in m ==> key <= k
  }

  lemma NothingLeft(below: View, data: View)
    requires below == map[] && data == map[]
    ensures Overlay(below, data) == map[]
  {
  }

  lemma OverlayFrom(below: View, data: View, key: Key, strict: bool)
    ensures Overlay(From(below, key, strict), From(data, key, strict)) == From(Overlay(below, data), key, strict)
  {
  }

  lemma OverlayWithout(below: View, data: View, key: Key)
    ensures Overlay(below - {key}, data - {key}) == Overlay(below, data) - {key}
  {
  }

  /** The least key of two maps decides: it is the least of the overlay, or it is a tombstone that the
      overlay does not have. */
  lemma LeastOfBoth(below: View, data: View, key: Key)
    requires AllLive(below) && (key in below || key in data)
    requires forall k :: k in below || k in data ==> key <= k
    ensures var value := if key in data then data[key] else below[key];
      if IsEmpty(value) then key in data && key !in Overlay(below, data)
      else IsLeast(Overlay(below, data), key) && Overlay(below, data)[key] == value
  {
  }

  /** Passing a tombstone loses nothing and makes progress. */
  lemma TombstonePassed(below: View, data: View, key: Key)
    requires key !in Overlay(below, data) && (key in below || key in data)
    ensures Overlay(below - {key}, data - {key}) == Overlay(below, data)
    ensures (data - {key}).Keys + (below - {key}).Keys < data.Keys + below.Keys
  {
    OverlayWithout(below, data, key);
    assert (data - {key}).Keys + (below - {key}).Keys == data.Keys + below.Keys - {key};
  }

  /** The least key of a map at or after (or after) a bound: std::map's lower_bound and upper_bound. */
  method LeastKey(m: View, bound: Key, strict: bool) returns (r: Option<Key>)
    ensures r.Some? ==> r.value in m && IsLeast(From(m, bound, strict), r.value)
    ensures From(m, bound, strict) == Rest(m, r)
  {
    r := None;
    var keys := m.Keys;
    while keys != {}
      invariant keys <= m.Keys
      invariant r.None? ==> forall k :: k in From(m, bound, strict) ==> k in keys
      invariant r.Some? ==> r.value in From(m, bound, strict) &&
                            forall k :: k in From(m, bound, strict) && k !in keys ==> r.value <= k
    {
      var k :| k in keys;
      if (if strict then k > bound else k >= bound) && (r.None? || k < r.value) {
        r := Some(k);
      }
      keys := keys - {k};
    }
  }

  // ---------------------------------------------------------------- the iterators at the ends

  /** CCacheMapIterator: over the entries of one cache, tombstones included. */
  class MapIterator {
    const data: View
    var at: Option<Key>        // None is end()

    ghost predicate Valid()
      reads this
    {
      at.Some? ==> at.value in data
    }

    ghost function Remaining(): View
      reads this
    {
      Rest(data, at)
    }

    constructor (data: View)
      ensures Valid() && this.data == data && Remaining() == map[]
    {
      this.data := data;
      at := None;
    }

    function Key(): (k: Key)
      requires Valid() && at.Some?
      reads this
      ensures IsLeast(Remaining(), k)
    {
      at.value
    }

    method First()
      modifies this
      ensures Valid() && Remaining() == data
    {
      at := LeastKey(data, EMPTY_KEY, false);
      assert From(data, EMPTY_KEY, false) == data;
    }

    /** Seek and SeekUpper. */
    method SeekFrom(key: Key, strict: bool)
      modifies this
      ensures Valid() && Remaining() == From(data, key, strict)
    {
      at := LeastKey(data, key, strict);
    }

    method Next()
      requires Valid() && at.Some?
      modifies this
      ensures Valid() && Remaining() == old(Remaining()) - {old(at.value)}
    {
      FromWithout(data, at.value);
      at := LeastKey(data, at.value, true);
    }
  }

  /** CDBAccessIterator: over the database's records of one prefix. */
  class DbIterator {
    const table: View
    var at: Option<Key>

    ghost predicate Valid()
      reads this
    {
      (at.Some? ==> at.value in table) && AllLive(table)
    }

    ghost function Remaining(): View
      reads this
    {
      Rest(table, at)
    }

    constructor (table: View)
      requires AllLive(table)
      ensures Valid() && this.table == table && Remaining() == map[]
    {
      this.table := table;
      at := None;
    }

    method First()
      requires Valid()
      modifies this
      ensures Valid() && Remaining() == table
    {
      at := LeastKey(table, EMPTY_KEY, false);
      assert From(table, EMPTY_KEY, false) == table;
    }

    method Seek(key: Key)
      requires Valid()
      modifies this
      ensures Valid() && Remaining() == From(table, key, false)
    {
      at := LeastKey(table, key, false);
    }

    /** Seek to the key, then skip it if it is there. */
    method SeekUpper(key: Key)
      requires Valid()
      modifies this
      ensures Valid() && Remaining() == From(table, key, true)
    {
      Seek(key);
      FromWithout(table, key);
      if at.Some? { RestLeast(table, at.value); }
      if at.Some? && at.value == key {
        Next();
      }
    }

    method Next()
      requires Valid() && at.Some?
      modifies this
      ensures Valid() && Remaining() == old(Remaining()) - {old(at.value)}
    {
      FromWithout(table, at.value);
      at := LeastKey(table, at.value, true);
    }
  }

  // ---------------------------------------------------------------- the layered iterator

  /** CDBCacheIteratorImpl: merges a cache's entries over the iterator of its base. */
  class LayerIterator {
    const mapIt: MapIterator
    const baseIt: LayerIterator?     // the base is a cache,
    const dbIt: DbIterator?          // or the database
    var isMapData: bool
    var isSameKey: bool
    var isValid: bool
    var key: Key
    var value: Value

    ghost const Repr: set<object>

    ghost predicate Linked()
      decreases Repr
    {
      && this in Repr && mapIt in Repr && (baseIt == null <==> dbIt != null)
      && (baseIt == null ==> Repr == {this, mapIt, dbIt})
      && (baseIt != null ==>
            baseIt in baseIt.Repr && this !in baseIt.Repr && mapIt !in baseIt.Repr && Repr == {this, mapIt} + baseIt.Repr && baseIt.Linked())
    }

    /** Everything there is to visit. */
    ghost function All(): View
      requires Linked()
      decreases Repr
    {
      Overlay(if baseIt != null then baseIt.All() else dbIt.table, mapIt.data)
    }

    ghost function BaseRemaining(): View
      requires Linked()
      reads Repr - {this}
      decreases Repr, 0
    {
      if baseIt != null then baseIt.Remaining() else dbIt.Remaining()
    }

    /** What is left to visit. */
    ghost function Remaining(): View
      requires Linked()
      reads Repr - {this}
      decreases Repr, 1
    {
      Overlay(BaseRemaining(), mapIt.Remaining())
    }

    /** The iterators below are in order; this one may not have looked at them yet. */
    ghost predicate PartsOK()
      reads Repr - {this}
      decreases Repr, 0
    {
      && Linked() && mapIt.Valid() && (if baseIt != null then baseIt.Valid() else dbIt.Valid())
      && AllLive(BaseRemaining())
    }

    ghost predicate Valid()
      reads Repr
      decreases Repr, 1
    {
      && Linked() && PartsOK()
      && (isValid <==> Remaining() != map[])
      && (isValid ==>
            && IsLeast(Remaining(), key) && Remaining()[key] == value
            && (isMapData <==> key in mapIt.Remaining())
            && (isSameKey <==> isMapData && key in BaseRemaining())
            && (isMapData || key in BaseRemaining())
            && (forall k :: k in BaseRemaining() || k in mapIt.Remaining() ==> key <= k))
    }

    lemma LeastIsKey()
      requires Valid()
      ensures if isValid then IsLeast(Remaining(), key) else Remaining() == map[]
    {
    }

    lemma RemainingIsLive()
      requires Linked()
      ensures AllLive(Remaining())
    {
    }

    predicate BaseIsValid()
      requires PartsOK()
      reads Repr - {this}
    {
      if baseIt != null then baseIt.isValid else dbIt.at.Some?
    }

    function BaseKey(): Key
      requires PartsOK() && BaseIsValid()
      reads Repr - {this}
    {
      if baseIt != null then baseIt.key else dbIt.at.value
    }

    function BaseValue(): Value
      requires PartsOK() && BaseIsValid()
      reads Repr - {this}
    {
      if baseIt != null then baseIt.value else dbIt.table[dbIt.at.value]
    }

    /** The base stands at the least key of what it has left. */
    lemma BaseStands()
      requires PartsOK()
      ensures Linked() && mapIt.Valid() && mapIt in Repr && this in Repr
      ensures BaseIsValid() <==> BaseRemaining() != map[]
      ensures BaseIsValid() ==>
                IsLeast(BaseRemaining(), BaseKey()) && BaseRemaining()[BaseKey()] == BaseValue()
    {
      if baseIt != null {
        assert baseIt.Valid();
      } else if dbIt.at.Some? {
        RestLeast(dbIt.table, dbIt.at.value);
        assert dbIt.at.value in Rest(dbIt.table, dbIt.at);
      }
    }

    /** So does the map iterator. */
    lemma MapStands()
      requires mapIt.Valid()
      ensures mapIt.at.Some? <==> mapIt.Remaining() != map[]
      ensures mapIt.at.Some? ==>
                mapIt.at.value in mapIt.data && IsLeast(mapIt.Remaining(), mapIt.at.value) && mapIt.Remaining()[mapIt.at.value] == mapIt.data[mapIt.at.value]
    {
      if mapIt.at.Some? {
        RestLeast(mapIt.data, mapIt.at.value);
        assert mapIt.at.value in Rest(mapIt.data, mapIt.at);
      }
    }

    constructor OverDatabase(data: View, table: View)
      requires AllLive(table)
      ensures Valid() && !isValid && All() == Overlay(table, data) && fresh(Repr)
    {
      var m := new MapIterator(data);
      var d := new DbIterator(table);
      mapIt, dbIt, baseIt := m, d, null;
      isMapData, isSameKey, isValid, key, value := false, false, false, EMPTY_KEY, NO_VALUE;
      Repr := {this, m, d};
    }

    constructor OverIterator(data: View, below: LayerIterator)
      requires below.Valid() && !below.isValid
      ensures Valid() && !isValid && All() == Overlay(below.All(), data) && fresh(Repr - below.Repr)
    {
      var m := new MapIterator(data);
      mapIt, dbIt, baseIt := m, null, below;
      isMapData, isSameKey, isValid, key, value := false, false, false, EMPTY_KEY, NO_VALUE;
      Repr := {this, m} + below.Repr;
    }

    /** `k` is the least key below, and the flags say where it comes from. */
    ghost predicate Looked(k: Key)
      requires Linked()
      reads Repr
    {
      && (isMapData <==> k in mapIt.Remaining())
      && (isSameKey <==> isMapData && k in BaseRemaining())
      && (isMapData || k in BaseRemaining())
      && (forall j :: j in BaseRemaining() || j in mapIt.Remaining() ==> k <= j)
    }

    method BaseNext()
      requires PartsOK() && BaseIsValid()
      modifies Repr - {this, mapIt}
      ensures PartsOK() && BaseRemaining() == old(BaseRemaining()) - {old(BaseKey())}
      decreases Repr, 0
    {
      if baseIt != null {
        baseIt.Next();
        baseIt.RemainingIsLive();
      } else {
        dbIt.Next();
      }
    }

    method InternalNext()
      requires PartsOK() && Looked(key)
      modifies Repr - {this}
      ensures PartsOK()
      ensures mapIt.Remaining() == old(mapIt.Remaining()) - {key}
      ensures BaseRemaining() == old(BaseRemaining()) - {key}
      decreases Repr, 1
    {
      hide Overlay, From, Rest, AllLive;
      MapStands();
      BaseStands();
      if isMapData {
        mapIt.Next();
        if isSameKey {
          BaseNext();
        }
      } else {
        BaseNext();
      }
    }

    /** ProcessGetData: the lesser of the two current keys; the cache wins a tie. */
    method ProcessGetData()
      requires PartsOK() && (mapIt.at.Some? || BaseIsValid())
      modifies this
      ensures PartsOK() && Looked(key) && isValid == old(isValid)
      ensures mapIt.Remaining() == old(mapIt.Remaining()) && BaseRemaining() == old(BaseRemaining())
      ensures value == if key in mapIt.Remaining() then mapIt.Remaining()[key] else BaseRemaining()[key]
    {
      hide Overlay, From, Rest, AllLive, MapIterator.Valid, DbIterator.Valid, LayerIterator.PartsOK, LayerIterator.Linked;
      BaseStands();
      MapStands();
      isMapData, isSameKey := true, false;
      if mapIt.at.Some? && BaseIsValid() {
        if BaseKey() < mapIt.at.value {
          isMapData := false;
        } else if mapIt.at.value < BaseKey() {
          isMapData := true;
        } else {
          isSameKey := true;
        }
      } else if mapIt.at.None? {
        isMapData := false;
      }
      if isMapData {
        key, value := mapIt.at.value, mapIt.data[mapIt.at.value];
      } else {
        key, value := BaseKey(), BaseValue();
      }
    }

    /** ProcessData: go to the next key that the overlay has, over tombstones. */
    method ProcessData()
      requires PartsOK()
      modifies Repr
      ensures Valid() && Remaining() == old(Remaining())
      decreases Repr, 2
    {
      hide Overlay, From, Rest, AllLive, IsLeast;
      isValid := mapIt.at.Some? || BaseIsValid();
      MapStands();
      BaseStands();
      while isValid
        invariant PartsOK() && Remaining() == old(Remaining())
        invariant isValid <==> mapIt.at.Some? || BaseIsValid()
        decreases mapIt.Remaining().Keys + BaseRemaining().Keys
        modifies Repr
      {
        ProcessGetData();
        LeastOfBoth(BaseRemaining(), mapIt.Remaining(), key);
        if !IsEmpty(value) {
          return;
        }
        TombstonePassed(BaseRemaining(), mapIt.Remaining(), key);
        InternalNext();
        isValid := mapIt.at.Some? || BaseIsValid();
      }
      MapStands();
      BaseStands();
      NothingLeft(BaseRemaining(), mapIt.Remaining());
    }

    method First()
      requires Valid()
      modifies Repr
      ensures Valid() && Remaining() == All()
      decreases Repr, 3
    {
      mapIt.First();
      if baseIt != null {
        baseIt.First();
      } else {
        dbIt.First();
      }
      ProcessData();
    }

    /** Seek: to the first live key at or after the given one. No key, or an empty one, means First. */
    method Seek(target: Option<Key>)
      requires Valid()
      modifies Repr
      ensures Valid()
      ensures Remaining() == if target.None? || target.value == EMPTY_KEY then All() else From(All(), target.value, false)
      decreases Repr, 4
    {
      if target.None? || target.value == EMPTY_KEY {
        First();
        return;
      }
      mapIt.SeekFrom(target.value, false);
      if baseIt != null {
        baseIt.Seek(target);
        OverlayFrom(baseIt.All(), mapIt.data, target.value, false);
      } else {
        dbIt.Seek(target.value);
        OverlayFrom(dbIt.table, mapIt.data, target.value, false);
      }
      ProcessData();
    }

    /** SeekUpper: to the first live key after the given one. */
    method SeekUpper(target: Option<Key>)
      requires Valid()
      modifies Repr
      ensures Valid()
      ensures Remaining() == if target.None? || target.value == EMPTY_KEY then All() else From(All(), target.value, true)
      decreases Repr, 4
    {
      if target.None? || target.value == EMPTY_KEY {
        First();
        return;
      }
      mapIt.SeekFrom(target.value, true);
      if baseIt != null {
        baseIt.SeekUpper(target);
        OverlayFrom(baseIt.All(), mapIt.data, target.value, true);
      } else {
        dbIt.SeekUpper(target.value);
        OverlayFrom(dbIt.table, mapIt.data, target.value, true);
      }
      ProcessData();
    }

    /** Next takes the current key, and nothing else, off what remains. */
    method Next()
      requires Valid() && isValid
      modifies Repr
      ensures Valid() && Remaining() == old(Remaining()) - {old(key)}
      decreases Repr, 3
    {
      OverlayWithout(BaseRemaining(), mapIt.Remaining(), key);
      InternalNext();
      ProcessData();
    }
  }

  /** Create: one iterator for every cache of the chain, over the database's. */
  method Create(cache: Cache) returns (it: LayerIterator)
    requires cache.Valid()
    ensures it.Valid() && !it.isValid && fresh(it.Repr) && it.All() == cache.View()
    decreases cache.Chain
  {
    if cache.base != null {
      assert cache.base.Valid() by { assert cache.base.Linked(); }
      var below := Create(cache.base);
      it := new LayerIterator.OverIterator(cache.data, below);
    } else {
      it := new LayerIterator.OverDatabase(cache.data, cache.db.table);
    }
  }

  // ---------------------------------------------------------------- whole iterations

  /** The items are the entries of the map, in strictly increasing key order. */
  ghost predicate Lists(items: seq<(Key, Value)>, m: View) {
    && (forall i, j :: 0 <= i < j < |items| ==> items[i].0 < items[j].0)
    && (forall i :: 0 <= i < |items| ==> items[i].0 in m && m[items[i].0] == items[i].1)
    && (forall k :: k in m ==> (k, m[k]) in items)
  }

  /** What has been visited, and what remains, of a map. */
  ghost predicate Visiting(items: seq<(Key, Value)>, rest: View, m: View) {
    && (forall i, j :: 0 <= i < j < |items| ==> items[i].0 < items[j].0)
    && (forall i, k :: 0 <= i < |items| && k in rest ==> items[i].0 < k)
    && (forall i :: 0 <= i < |items| ==> items[i].0 in m && m[items[i].0] == items[i].1)
    && (forall k :: k in m ==> (k in rest && rest[k] == m[k]) || (k, m[k]) in items)
    && (forall k :: k in rest ==> k in m && rest[k] == m[k])
  }

  lemma VisitNext(items: seq<(Key, Value)>, rest: View, m: View, key: Key)
    requires Visiting(items, rest, m) && IsLeast(rest, key)
    ensures Visiting(items + [(key, rest[key])], rest - {key}, m)
  {
    var items' := items + [(key, rest[key])];
    forall k | k in m ensures (k in rest - {key} && (rest - {key})[k] == m[k]) || (k, m[k]) in items' {
      if k == key { assert items'[|items|] == (k, m[k]); }
      else if (k, m[k]) in items { assert (k, m[k]) in items'; }
    }
  }

  /** A loop with First and Next, as the list queries of the databases run it, visits exactly the live
      entries of the view. */
  method Enumerate(cache: Cache) returns (items: seq<(Key, Value)>)
    requires cache.Valid()
    ensures Lists(items, cache.View())
  {
    var it := Create(cache);
    items := [];
    it.First();
    ghost var all := it.All();
    hide Visiting;
    assert Visiting([], all, all) by { VisitStart(all); }
    while it.isValid
      invariant it.Valid() && Visiting(items, it.Remaining(), all) && fresh(it.Repr)
      decreases it.Remaining().Keys
      modifies it.Repr
    {
      VisitNext(items, it.Remaining(), all, it.key);
      items := items + [(it.key, it.value)];
      it.Next();
    }
    VisitEnd(items, all);
  }

  lemma VisitStart(m: View)
    ensures Visiting([], m, m)
  {
  }

  lemma VisitEnd(items: seq<(Key, Value)>, m: View)
    requires Visiting(items, map[], m)
    ensures Lists(items, m)
  {
  }

  // ---------------------------------------------------------------- prefixes

  /** Of these keys, those that match are an interval that starts at (or after) `low`. */
  ghost predicate IsPrefix(keys: set<Key>, matches: Key -> bool, low: Key) {
    && (forall k :: k in keys && matches(k) ==> low <= k)
    && (forall j, k :: j in keys && k in keys && low <= j <= k && matches(k) ==> matches(j))
  }

  function Matching(m: View, matches: Key -> bool): View {
    map k | k in m && matches(k) :: m[k]
  }

  /** CDBPrefixIterator, run from First until IsValid is false: exactly the live keys that match. */
  method EnumeratePrefix(cache: Cache, matches: Key -> bool, low: Key) returns (items: seq<(Key, Value)>)
    requires cache.Valid() && IsPrefix(cache.View().Keys, matches, low)
    ensures Lists(items, Matching(cache.View(), matches))
  {
    hide Visiting, Matching, Lists, From, Overlay, IsPrefix;
    var it := Create(cache);
    ghost var all := cache.View();
    it.Seek(Some(low));
    if low == EMPTY_KEY { FromEmpty(all); }
    PrefixStart(all, matches, low);
    FewerKeys(all, From(all, low, false), matches, low);
    items := WalkPrefix(it, matches, low, Matching(all, matches));
    VisitEnd(items, Matching(all, matches));
  }

  /** The loop `while IsValid` with its Next. */
  method WalkPrefix(it: LayerIterator, matches: Key -> bool, low: Key, ghost m: View) returns (items: seq<(Key, Value)>)
    requires it.Valid() && IsPrefix(it.Remaining().Keys, matches, low) && Visiting([], Matching(it.Remaining(), matches), m)
    requires forall k :: k in it.Remaining() ==> low <= k
    modifies it.Repr
    ensures Visiting(items, map[], m)
  {
    hide Visiting, Matching, From, Overlay, IsPrefix;
    items := [];
    while it.isValid && matches(it.key)
      invariant it.Valid() && Visiting(items, Matching(it.Remaining(), matches), m)
      invariant (forall k :: k in it.Remaining() ==> low <= k) && IsPrefix(it.Remaining().Keys, matches, low)
      decreases it.Remaining().Keys
    {
      it.LeastIsKey();
      FewerKeys(it.Remaining(), it.Remaining() - {it.key}, matches, low);
      PrefixNext(items, it.Remaining(), m, matches, it.key);
      items := items + [(it.key, it.value)];
      it.Next();
    }
    it.LeastIsKey();
    PrefixEnd(it.Remaining(), matches, low);
  }

  lemma FromEmpty(m: View)
    ensures From(m, EMPTY_KEY, false) == m
  {
  }

  lemma PrefixStart(m: View, matches: Key -> bool, low: Key)
    requires IsPrefix(m.Keys, matches, low)
    ensures From(m, low, false).Keys <= m.Keys
    ensures Visiting([], Matching(From(m, low, false), matches), Matching(m, matches))
    ensures forall k :: k in From(m, low, false) ==> low <= k
  {
  }

  lemma FewerKeys(m: View, rest: View, matches: Key -> bool, low: Key)
    requires IsPrefix(m.Keys, matches, low) && rest.Keys <= m.Keys
    ensures IsPrefix(rest.Keys, matches, low)
  {
  }

  lemma PrefixNext(items: seq<(Key, Value)>, rest: View, m: View, matches: Key -> bool, key: Key)
    requires Visiting(items, Matching(rest, matches), m) && IsLeast(rest, key) && matches(key)
    ensures Visiting(items + [(key, rest[key])], Matching(rest - {key}, matches), m)
  {
    VisitNext(items, Matching(rest, matches), m, key);
    assert Matching(rest, matches) - {key} == Matching(rest - {key}, matches);
  }

  /** Where the least remaining key does not match, no other does. */
  lemma PrefixEnd(rest: View, matches: Key -> bool, low: Key)
    requires IsPrefix(rest.Keys, matches, low) && forall k :: k in rest ==> low <= k
    requires rest == map[] || exists k :: IsLeast(rest, k) && !matches(k)
    ensures Matching(rest, matches) == map[]
  {
  }

  /** Tail keys (strings) match a prefix by StartWith: an interval of the bytewise order. */
  lemma {:induction false} StringPrefixIsInterval(prefix: Bytes, j: Bytes, k: Bytes)
    requires prefix <= k
    ensures Compare(prefix, k) <= 0
    ensures Compare(prefix, j) <= 0 && Compare(j, k) <= 0 ==> prefix <= j
  {
    if prefix != [] {
      if j != [] && j[0] == k[0] {
        StringPrefixIsInterval(prefix[1..], j[1..], k[1..]);
        assert prefix == [prefix[0]] + prefix[1..] && j == [j[0]] + j[1..];
      } else {
        StringPrefixIsInterval(prefix[1..], k[1..], k[1..]);
      }
    }
  }

  // ---------------------------------------------------------------- the matcher

  /** A component of a key: a tail key, which matches by its beginning, or anything else, given by its rank in
      its order, which matches by equality. The empty component is the least one. */
  datatype Part = Tail(bytes: Bytes) | Plain(rank: nat)

  /** Keys are single components, pairs and tuples; a shape says which components are tail keys. */
  type Parts = seq<Part>
  type Shape = seq<bool>

  predicate HasShape(shape: Shape, key: Parts) {
    |key| <= |shape| && forall i :: 0 <= i < |key| ==> (key[i].Tail? <==> shape[i])
  }

  function EmptyPart(tail: bool): Part { if tail then Tail([]) else Plain(0) }

  predicate PartAtMost(a: Part, b: Part) {
    match (a, b)
    case (Tail(x), Tail(y)) => Compare(x, y) <= 0
    case (Plain(x), Plain(y)) => x <= y
    case _ => false
  }

  /** operator< of pairs and tuples: the first component that differs decides. */
  predicate AtMost(a: Parts, b: Parts) {
    a == [] || (b != [] && if a[0] == b[0] then AtMost(a[1..], b[1..]) else PartAtMost(a[0], b[0]))
  }

  /** MatchPrefix of one component. */
  predicate PartMatches(key: Part, prefix: Part) {
    if key.Tail? && prefix.Tail? then prefix.bytes <= key.bytes else key == prefix
  }

  /** MatchPrefix, all its overloads: the last component of the prefix may match in part, those before it are
      equal; the empty prefix matches all keys. */
  predicate MatchPrefix(key: Parts, prefix: Parts) {
    prefix == [] || (key != [] && if |prefix| == 1 then PartMatches(key[0], prefix[0])
                                  else key[0] == prefix[0] && MatchPrefix(key[1..], prefix[1..]))
  }

  /** The keys that a prefix is for: all but the last of its components are there, and the last one is, or is the
      beginning of a tail key. Every key starts with the empty prefix. */
  ghost predicate StartsWith(key: Parts, prefix: Parts) {
    && |prefix| <= |key|
    && (forall i :: 0 <= i < |prefix| - 1 ==> key[i] == prefix[i])
    && (prefix != [] ==>
          var k, p := key[|prefix|-1], prefix[|prefix|-1];
          k == p || (k.Tail? && p.Tail? && p.bytes <= k.bytes))
  }

  lemma {:induction false} MatchPrefixMeans(key: Parts, prefix: Parts)
    ensures MatchPrefix(key, prefix) <==> StartsWith(key, prefix)
  {
    if |prefix| > 1 && key != [] {
      var k, p := key[1..], prefix[1..];
      MatchPrefixMeans(k, p);
      forall i | StartsWith(key, prefix) && 0 <= i < |p| - 1 ensures k[i] == p[i] {
        assert key[i+1] == prefix[i+1];
      }
      assert forall i :: 1 <= i < |prefix| && i < |key| ==> key[i] == k[i-1] && prefix[i] == p[i-1];
    }
  }

  ghost predicate FirstDifference(a: Parts, b: Parts, i: int) {
    0 <= i < |a| && i < |b| && a[..i] == b[..i] && a[i] != b[i]
  }

  /** The first component in which two keys differ decides their order. */
  lemma {:induction false} AtMostMeans(a: Parts, b: Parts)
    ensures a <= b ==> AtMost(a, b)
    ensures b <= a && a != b ==> !AtMost(a, b)
    ensures forall i :: FirstDifference(a, b, i) ==> (AtMost(a, b) <==> PartAtMost(a[i], b[i]))
  {
    if a != [] && b != [] {
      var x, y := a[1..], b[1..];
      AtMostMeans(x, y);
      assert a == [a[0]] + x && b == [b[0]] + y;
      forall i | FirstDifference(a, b, i) ensures AtMost(a, b) <==> PartAtMost(a[i], b[i]) {
        if i > 0 {
          assert a[..i][0] == a[0] && b[..i][0] == b[0];
          assert x[..i-1] == a[..i][1..] && y[..i-1] == b[..i][1..];
          assert FirstDifference(x, y, i - 1);
        }
      }
    }
  }

  /** MakeKeyByPrefix: the other components are empty. */
  function MakeKeyByPrefix(shape: Shape, prefix: Parts): (r: Parts)
    ensures |r| == |shape|
    ensures forall i :: 0 <= i < |shape| ==>
              r[i] == if i < |prefix| then prefix[i] else if shape[i] then Tail([]) else Plain(0)
  {
    if shape == [] then []
    else if prefix == [] then [EmptyPart(shape[0])] + MakeKeyByPrefix(shape[1..], [])
    else [prefix[0]] + MakeKeyByPrefix(shape[1..], prefix[1..])
  }

  lemma PartInterval(prefix: Part, j: Part, k: Part)
    requires (j.Tail? <==> k.Tail?) && (prefix.Tail? <==> k.Tail?) && PartMatches(k, prefix)
    ensures PartAtMost(prefix, k)
    ensures PartAtMost(prefix, j) && PartAtMost(j, k) ==> PartMatches(j, prefix)
  {
    if k.Tail? { StringPrefixIsInterval(prefix.bytes, j.bytes, k.bytes); }
  }

  lemma EmptyIsLeast(k: Part)
    ensures PartAtMost(EmptyPart(k.Tail?), k)
  {
    if k.Tail? { StringPrefixIsInterval([], k.bytes, k.bytes); }
  }

  lemma TailShape(shape: Shape, key: Parts)
    requires HasShape(shape, key) && key != []
    ensures shape != [] && HasShape(shape[1..], key[1..]) && (key[0].Tail? <==> shape[0])
  {
  }

  /** For every shape of key and every prefix: the keys that match are the interval from the key that
      MakeKeyByPrefix makes. */
  lemma {:induction false} MatchIsInterval(shape: Shape, prefix: Parts, j: Parts, k: Parts)
    requires HasShape(shape, prefix) && HasShape(shape, j) && HasShape(shape, k) && |j| == |k| == |shape|
    requires MatchPrefix(k, prefix)
    ensures AtMost(MakeKeyByPrefix(shape, prefix), k)
    ensures AtMost(MakeKeyByPrefix(shape, prefix), j) && AtMost(j, k) ==> MatchPrefix(j, prefix)
  {
    if shape != [] {
      var low := MakeKeyByPrefix(shape, prefix);
      TailShape(shape, j);
      TailShape(shape, k);
      if prefix == [] {
        EmptyIsLeast(k[0]);
        MatchIsInterval(shape[1..], [], j[1..], k[1..]);
        assert low[1..] == MakeKeyByPrefix(shape[1..], []);
      } else {
        TailShape(shape, prefix);
        assert low[1..] == MakeKeyByPrefix(shape[1..], prefix[1..]);
        if |prefix| == 1 {
          PartInterval(prefix[0], j[0], k[0]);
          PartOrder(prefix[0], j[0], k[0]);
          MatchIsInterval(shape[1..], [], j[1..], k[1..]);
          assert prefix[1..] == [];
        } else {
          MatchIsInterval(shape[1..], prefix[1..], j[1..], k[1..]);
          PartOrder(prefix[0], j[0], k[0]);
        }
      }
    }
  }

  /** The order of components is antisymmetric. */
  lemma PartOrder(a: Part, j: Part, k: Part)
    requires (j.Tail? <==> k.Tail?) && (a.Tail? <==> k.Tail?)
    ensures PartAtMost(j, j)
    ensures a == k && PartAtMost(a, j) && PartAtMost(j, k) ==> j == k
  {
    if k.Tail? {
      CompareSelf(j.bytes);
      if a == k && Compare(a.bytes, j.bytes) <= 0 && Compare(j.bytes, k.bytes) <= 0 { CompareBoth(j.bytes, k.bytes); }
    }
  }

  lemma {:induction false} CompareSelf(a: Bytes)
    ensures Compare(a, a) == 0
  {
    if a != [] { CompareSelf(a[1..]); }
  }

  lemma {:induction false} CompareBoth(a: Bytes, b: Bytes)
    requires Compare(a, b) <= 0 && Compare(b, a) <= 0
    ensures a == b
  {
    if a != [] && b != [] {
      assert a == [a[0]] + a[1..] && b == [b[0]] + b[1..];
      CompareBoth(a[1..], b[1..]);
    }
  }

  /** The keys of the view have this shape, and operator< is the order of their ranks. */
  ghost predicate KeysOf(shape: Shape, parts: Key -> Parts, keys: set<Key>, low: Key) {
    && (forall k :: k in keys ==> HasShape(shape, parts(k)) && |parts(k)| == |shape|)
    && (forall j, k :: j in keys && k in keys ==> (j <= k <==> AtMost(parts(j), parts(k))))
    && (forall k :: k in keys ==> (low <= k <==> AtMost(parts(low), parts(k))))
  }

  /** The entries whose keys start with the prefix. */
  ghost function WithPrefix(m: View, parts: Key -> Parts, prefix: Parts): View {
    map k | k in m && StartsWith(parts(k), prefix) :: m[k]
  }

  /** CDBPrefixIterator with CommonPrefixMatcher, on every kind of key and prefix: exactly the live keys that
      start with the prefix. */
  method EnumerateMatching(cache: Cache, shape: Shape, parts: Key -> Parts, prefix: Parts, low: Key)
      returns (items: seq<(Key, Value)>)
    requires cache.Valid() && HasShape(shape, prefix) && parts(low) == MakeKeyByPrefix(shape, prefix)
    requires KeysOf(shape, parts, cache.View().Keys, low)
    ensures Lists(items, WithPrefix(cache.View(), parts, prefix))
  {
    var matches := (k: Key) => MatchPrefix(parts(k), prefix);
    MatcherIsPrefix(shape, parts, prefix, low, cache.View().Keys, matches);
    items := EnumeratePrefix(cache, matches, low);
    forall k | k in cache.View() ensures matches(k) <==> StartsWith(parts(k), prefix) {
      MatchPrefixMeans(parts(k), prefix);
    }
    assert Matching(cache.View(), matches) == WithPrefix(cache.View(), parts, prefix);
  }

  lemma MatcherIsPrefix(shape: Shape, parts: Key -> Parts, prefix: Parts, low: Key, keys: set<Key>, matches: Key -> bool)
    requires HasShape(shape, prefix) && parts(low) == MakeKeyByPrefix(shape, prefix) && KeysOf(shape, parts, keys, low)
    requires forall k :: matches(k) <==> MatchPrefix(parts(k), prefix)
    ensures IsPrefix(keys, matches, low)
  {
    forall k | k in keys && matches(k) ensures low <= k {
      MatchIsInterval(shape, prefix, parts(k), parts(k));
    }
    forall j, k | j in keys && k in keys && low <= j <= k && matches(k) ensures matches(j) {
      MatchIsInterval(shape, prefix, parts(j), parts(k));
    }
  }
}
