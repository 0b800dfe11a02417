/** The LRU cache (leveldb/util/cache.cc): a hash table with chains and growth that is a map, and on top
    of it reference counts, charges and eviction in order of use. */
module LruCaches {
  import opened Slices
  import opened Options

  type Hash = Bytes -> nat

  /** An entry of a chain: the key, its hash, and the handle. */
  datatype Slot = Slot(key: Bytes, hash: nat, handle: nat)

  type Buckets = seq<seq<Slot>>
  type Contents = map<Bytes, nat>

  // ---------------------------------------------------------------- the hash table

  ghost predicate UniqueKeys(bucket: seq<Slot>) {
    forall i, j :: 0 <= i < j < |bucket| ==> bucket[i].key != bucket[j].key
  }

  /** The buckets hold exactly the map: every key once, in the bucket its hash names. */
  ghost predicate Holds(hash: Hash, lists: Buckets, m: Contents) {
    && |lists| > 0
    && (forall b :: 0 <= b < |lists| ==> UniqueKeys(lists[b]))
    && (forall b, s :: 0 <= b < |lists| && s in lists[b] ==>
          s.key in m && s == Slot(s.key, hash(s.key), m[s.key]) && s.hash % |lists| == b)
    && (forall key :: key in m ==> Slot(key, hash(key), m[key]) in lists[hash(key) % |lists|])
  }

  /** FindPointer: the place of the key in its chain, or the end of the chain. */
  method FindPointer(bucket: seq<Slot>, key: Bytes, hash: nat) returns (i: nat)
    ensures IsPlace(bucket, key, hash, i)
  {
    i := 0;
    while i < |bucket| && (bucket[i].hash != hash || key != bucket[i].key)
      invariant 0 <= i <= |bucket|
      invariant forall j :: 0 <= j < i ==> !(bucket[j].hash == hash && bucket[j].key == key)
    {
      i := i + 1;
    }
  }

  /** Lengths of the bucket array: a mask picks the bucket. */
  ghost predicate PowerOfTwo(n: nat) { n == 4 || (n > 4 && n % 2 == 0 && PowerOfTwo(n / 2)) }

  /** The least of these lengths that gives every entry a bucket. */
  method NewLength(elems: nat) returns (n: nat)
    ensures PowerOfTwo(n) && n >= 4 && n >= elems && (n == 4 || n < 2 * elems)
  {
    n := 4;
    assert PowerOfTwo(4);
    hide PowerOfTwo;
    while n < elems
      invariant n >= 4 && PowerOfTwo(n) && (n == 4 || n < 2 * elems)
      decreases elems - n
    {
      Doubles(n);
      n := n * 2;
    }
  }

  lemma Doubles(n: nat)
    requires PowerOfTwo(n) && n >= 4
    ensures PowerOfTwo(n * 2)
  {
    assert n * 2 / 2 == n && n * 2 % 2 == 0;
  }

  class HandleTable {
    const hash: Hash
    var length: nat
    var elems: nat
    var list: array<seq<Slot>>
    ghost var contents: Contents

    ghost predicate Valid()
      reads this, list
    {
      && list.Length == length > 0 && PowerOfTwo(length)
      && elems == |contents| <= length && Holds(hash, list[..], contents)
    }

    constructor (hash: Hash)
      ensures Valid() && contents == map[] && fresh(list) && this.hash == hash
    {
      this.hash := hash;
      length, elems := 4, 0;
      list := new seq<Slot>[4](_ => []);
      contents := map[];
    }

    method Lookup(key: Bytes) returns (r: Option<nat>)
      requires Valid()
      ensures r == if key in contents then Some(contents[key]) else None
    {
      var h := hash(key);
      var bucket := list[h % length];
      assert bucket == list[..][h % length];
      var i := FindPointer(bucket, key, h);
      r := if i < |bucket| then Some(bucket[i].handle) else None;
      if i < |bucket| { assert bucket[i] in bucket; }
    }

    /** Insert; returns the handle that was there. */
    method Insert(key: Bytes, handle: nat) returns (old_: Option<nat>)
      requires Valid()
      modifies this, list
      ensures Valid() && contents == old(contents)[key := handle] && (list == old(list) || fresh(list))
      ensures old_ == if key in old(contents) then Some(old(contents)[key]) else None
    {
      hide Holds;
      var h := hash(key);
      var b := h % length;
      ghost var lists := list[..];
      var bucket := list[b];
      var i := FindPointer(bucket, key, h);
      PutKeeps(hash, lists, contents, key, handle, i);
      contents := contents[key := handle];
      if i < |bucket| {
        old_ := Some(bucket[i].handle);
        list[b] := bucket[i := Slot(key, h, handle)];
        assert list[..] == lists[b := lists[b][i := Slot(key, h, handle)]];
      } else {
        old_ := None;
        list[b] := bucket + [Slot(key, h, handle)];
        assert list[..] == lists[b := lists[b] + [Slot(key, h, handle)]];
        elems := elems + 1;
        if elems > length {
          Resize();
        }
      }
    }

    method Remove(key: Bytes) returns (r: Option<nat>)
      requires Valid()
      modifies this, list
      ensures Valid() && contents == old(contents) - {key} && list == old(list)
      ensures r == if key in old(contents) then Some(old(contents)[key]) else None
    {
      hide Holds;
      var h := hash(key);
      var b := h % length;
      ghost var lists := list[..];
      var bucket := list[b];
      var i := FindPointer(bucket, key, h);
      TakeKeeps(hash, lists, contents, key, i);
      r := None;
      if i < |bucket| {
        r := Some(bucket[i].handle);
        list[b] := bucket[..i] + bucket[i+1..];
        assert list[..] == lists[b := lists[b][..i] + lists[b][i+1..]];
        elems := elems - 1;
      }
      contents := contents - {key};
    }

    /** Resize: move every entry to the front of its chain in a larger array. */
    method Resize()
      requires list.Length == length > 0 && elems == |contents| && Holds(hash, list[..], contents)
      modifies this`length, this`list
      ensures Valid() && fresh(list) && (length == 4 || length < 2 * elems)
    {
      hide Holds, UniqueKeys, PowerOfTwo;
      var newLength := NewLength(elems);
      var newList := new seq<Slot>[newLength](_ => []);
      ghost var moved: Contents := map[];
      NothingHeld(hash, newList[..]);
      for i := 0 to length
        invariant newList.Length == newLength && fresh(newList) && list[..] == old(list[..])
        invariant list == old(list) && list.Length == length > 0 && Holds(hash, newList[..], moved)
        invariant forall key :: key in moved <==> key in contents && hash(key) % length < i
        invariant forall key :: key in moved ==> moved[key] == contents[key]
      {
        ghost var before := moved;
        ChainKeys(hash, list[..], contents, i);
        for j := 0 to |list[i]|
          invariant newList.Length == newLength && fresh(newList) && list[..] == old(list[..])
          invariant list == old(list) && length == old(length)
          invariant Holds(hash, newList[..], moved)
          invariant forall key :: key in moved <==> key in before || exists n :: 0 <= n < j && list[i][n].key == key
          invariant forall key :: key in moved ==> key in contents && moved[key] == contents[key]
        {
          var s := list[i][j];
          ghost var lists := newList[..];
          MoveKeeps(hash, lists, moved, s);
          newList[s.hash % newLength] := [s] + newList[s.hash % newLength];
          assert newList[..] == lists[s.hash % newLength := [s] + lists[s.hash % newLength]];
          moved := moved[s.key := s.handle];
        }
      }
      assert moved == contents;
      list, length := newList, newLength;
    }
  }

  lemma NothingHeld(hash: Hash, lists: Buckets)
    requires |lists| > 0 && forall b :: 0 <= b < |lists| ==> lists[b] == []
    ensures Holds(hash, lists, map[])
  {
  }

  /** The keys of chain i are the keys that its index names. */
  lemma ChainKeys(hash: Hash, lists: Buckets, m: Contents, i: nat)
    requires Holds(hash, lists, m) && i < |lists|
    ensures forall n :: 0 <= n < |lists[i]| ==>
              var s := lists[i][n]; s.key in m && s == Slot(s.key, hash(s.key), m[s.key]) && s.hash % |lists| == i
    ensures forall key :: key in m && hash(key) % |lists| == i ==> exists n :: 0 <= n < |lists[i]| && lists[i][n].key == key
    ensures forall n, k :: 0 <= n < k < |lists[i]| ==> lists[i][n].key != lists[i][k].key
  {
    assert UniqueKeys(lists[i]);
    forall n | 0 <= n < |lists[i]|
      ensures var s := lists[i][n]; s.key in m && s == Slot(s.key, hash(s.key), m[s.key]) && s.hash % |lists| == i
    {
      assert lists[i][n] in lists[i];
    }
  }

  lemma MoveKeeps(hash: Hash, lists: Buckets, m: Contents, s: Slot)
    requires Holds(hash, lists, m) && s.key !in m && s.hash == hash(s.key)
    ensures var b := s.hash % |lists|; Holds(hash, lists[b := [s] + lists[b]], m[s.key := s.handle])
  {
    var b := s.hash % |lists|;
    NotInBucket(hash, lists, m, s.key, b);
    assert UniqueKeys([s] + lists[b]);
    hide Holds, UniqueKeys;
    ChangedBucket(hash, lists, m, b, [s] + lists[b], m[s.key := s.handle], s.key);
  }

  lemma NotInBucket(hash: Hash, lists: Buckets, m: Contents, key: Bytes, b: nat)
    requires Holds(hash, lists, m) && key !in m && b < |lists|
    ensures UniqueKeys(lists[b]) && forall t :: t in lists[b] ==> t.key != key
  {
  }

  /** What FindPointer found. */
  ghost predicate IsPlace(bucket: seq<Slot>, key: Bytes, hash: nat, i: nat) {
    && i <= |bucket| && (i < |bucket| ==> bucket[i].key == key && bucket[i].hash == hash)
    && (i == |bucket| ==> forall j :: 0 <= j < |bucket| ==> !(bucket[j].hash == hash && bucket[j].key == key))
  }

  lemma PlaceMeans(hash: Hash, lists: Buckets, m: Contents, key: Bytes, i: nat)
    requires Holds(hash, lists, m) && IsPlace(lists[hash(key) % |lists|], key, hash(key), i)
    ensures var bucket := lists[hash(key) % |lists|];
      && i <= |bucket| && (i < |bucket| <==> key in m) && (i < |bucket| ==> bucket[i] == Slot(key, hash(key), m[key]))
      && (forall s :: s in bucket && s.key == key ==> i < |bucket| && s == bucket[i])
  {
    var bucket := lists[hash(key) % |lists|];
    if i < |bucket| { assert bucket[i] in bucket; }
  }

  lemma PutKeeps(hash: Hash, lists: Buckets, m: Contents, key: Bytes, handle: nat, i: nat)
    requires Holds(hash, lists, m) && IsPlace(lists[hash(key) % |lists|], key, hash(key), i)
    ensures var b, s := hash(key) % |lists|, Slot(key, hash(key), handle);
      && i <= |lists[b]| && (i < |lists[b]| <==> key in m) && (i < |lists[b]| ==> lists[b][i].handle == m[key])
      && Holds(hash, lists[b := if i < |lists[b]| then lists[b][i := s] else lists[b] + [s]], m[key := handle])
  {
    PlaceMeans(hash, lists, m, key, i);
    var b, s := hash(key) % |lists|, Slot(key, hash(key), handle);
    var bucket' := if i < |lists[b]| then lists[b][i := s] else lists[b] + [s];
    WithSlot(lists[b], s, i);
    hide Holds, UniqueKeys;
    ChangedBucket(hash, lists, m, b, bucket', m[key := handle], key);
  }

  /** Changing the entry of one key in its bucket. */
  lemma ChangedBucket(hash: Hash, lists: Buckets, m: Contents, b: nat, bucket': seq<Slot>, m': Contents, key: Bytes)
    requires Holds(hash, lists, m) && b == hash(key) % |lists| && UniqueKeys(bucket')
    requires forall k :: k != key ==> (k in m' <==> k in m) && (k in m ==> m'[k] == m[k])
    requires forall t :: t in bucket' ==> (t.key != key && t in lists[b]) || (key in m' && t == Slot(key, hash(key), m'[key]))
    requires forall t :: t in lists[b] && t.key != key ==> t in bucket'
    requires key in m' ==> Slot(key, hash(key), m'[key]) in bucket'
    ensures Holds(hash, lists[b := bucket'], m')
  {
  }

  /** A bucket with a slot at the place of its key. */
  lemma WithSlot(bucket: seq<Slot>, s: Slot, i: nat)
    requires i <= |bucket| && UniqueKeys(bucket) && (i < |bucket| ==> bucket[i].key == s.key)
    requires forall t :: t in bucket && t.key == s.key ==> i < |bucket| && t == bucket[i]
    ensures var bucket' := if i < |bucket| then bucket[i := s] else bucket + [s];
      && UniqueKeys(bucket') && s in bucket'
      && (forall t :: t in bucket' ==> t == s || (t in bucket && t.key != s.key))
      && (forall t :: t in bucket && t.key != s.key ==> t in bucket')
  {
    var bucket' := if i < |bucket| then bucket[i := s] else bucket + [s];
    assert bucket'[i] == s;
    forall t | t in bucket' ensures t == s || (t in bucket && t.key != s.key) {
      var j :| 0 <= j < |bucket'| && bucket'[j] == t;
      if j != i { assert t == bucket[j] && t in bucket; }
    }
    forall t | t in bucket && t.key != s.key ensures t in bucket' {
      var j :| 0 <= j < |bucket| && bucket[j] == t;
      assert bucket'[j] == t;
    }
  }

  /** A bucket without its slot `i`. */
  lemma WithoutSlot(bucket: seq<Slot>, i: nat)
    requires i < |bucket| && UniqueKeys(bucket)
    ensures var left := bucket[..i] + bucket[i+1..];
      UniqueKeys(left) && forall t :: t in left <==> t in bucket && t.key != bucket[i].key
  {
    var left := bucket[..i] + bucket[i+1..];
    assert forall j :: 0 <= j < |left| ==> left[j] == bucket[if j < i then j else j + 1];
    forall t | t in bucket && t.key != bucket[i].key ensures t in left {
      var j :| 0 <= j < |bucket| && bucket[j] == t;
      assert left[if j < i then j else j - 1] == t;
    }
  }

  lemma TakeKeeps(hash: Hash, lists: Buckets, m: Contents, key: Bytes, i: nat)
    requires Holds(hash, lists, m) && IsPlace(lists[hash(key) % |lists|], key, hash(key), i)
    ensures var b := hash(key) % |lists|;
      && i <= |lists[b]| && (i < |lists[b]| <==> key in m) && (i < |lists[b]| ==> lists[b][i].handle == m[key])
      && (i < |lists[b]| ==> Holds(hash, lists[b := lists[b][..i] + lists[b][i+1..]], m - {key}))
      && (i == |lists[b]| ==> m - {key} == m)
  {
    PlaceMeans(hash, lists, m, key, i);
    var b := hash(key) % |lists|;
    if i < |lists[b]| {
      BucketUnique(hash, lists, m, b);
      TakeSlot(hash, lists, m, key, b, i);
    }
  }

  lemma BucketUnique(hash: Hash, lists: Buckets, m: Contents, b: nat)
    requires Holds(hash, lists, m) && b < |lists|
    ensures UniqueKeys(lists[b])
  {
  }

  lemma TakeSlot(hash: Hash, lists: Buckets, m: Contents, key: Bytes, b: nat, i: nat)
    requires Holds(hash, lists, m) && b < |lists| && b == hash(key) % |lists| && UniqueKeys(lists[b])
    requires i < |lists[b]| && lists[b][i].key == key
    ensures Holds(hash, lists[b := lists[b][..i] + lists[b][i+1..]], m - {key})
  {
    hide Holds, UniqueKeys;
    WithoutSlot(lists[b], i);
    ChangedBucket(hash, lists, m, b, lists[b][..i] + lists[b][i+1..], m - {key}, key);
  }

  // ---------------------------------------------------------------- the cache

  /** LRUHandle. */
  datatype Handle = Handle(key: Bytes, value: int, charge: nat, refs: nat)

  type Handles = map<nat, Handle>

  ghost function Charges(entries: Handles): nat {
    if entries == map[] then 0
    else
      var h :| h in entries;
      entries[h].charge + Charges(entries - {h})
  }

  lemma {:induction false} ChargesWithout(entries: Handles, h: nat)
    requires h in entries
    ensures Charges(entries) == entries[h].charge + Charges(entries - {h})
  {
    var first :| first in entries && Charges(entries) == entries[first].charge + Charges(entries - {first});
    if first != h {
      ChargesWithout(entries - {first}, h);
      ChargesWithout(entries - {h}, first);
      assert entries - {first} - {h} == entries - {h} - {first};
    }
  }

  /** Changing a reference count changes no charge. */
  lemma ChargesSame(entries: Handles, h: nat, e: Handle)
    requires h in entries && entries[h].charge == e.charge
    ensures Charges(entries[h := e]) == Charges(entries)
  {
    ChargesWithout(entries, h);
    ChargesWithout(entries[h := e], h);
    assert entries[h := e] - {h} == entries - {h};
  }

  lemma ChargesAdd(entries: Handles, h: nat, e: Handle)
    requires h !in entries
    ensures Charges(entries[h := e]) == Charges(entries) + e.charge
  {
    ChargesWithout(entries[h := e], h);
    assert entries[h := e] - {h} == entries;
  }

  /** No handle twice. */
  ghost predicate Once(lru: seq<nat>) {
    forall i, j :: 0 <= i < j < |lru| ==> lru[i] != lru[j]
  }

  /** `lru` lists the resident entries, oldest first, and the table has exactly these. */
  ghost predicate ListOK(entries: Handles, lru: seq<nat>, table: Contents) {
    && Once(lru)
    && (forall h :: h in lru ==> h in entries && entries[h].key in table && table[entries[h].key] == h)
    && (forall key :: key in table ==> table[key] in lru && entries[table[key]].key == key)
  }

  /** `out` are the handles that callers hold. A resident entry has one reference from the cache, and
      every entry one for each handle that is out. */
  ghost predicate RefsOK(entries: Handles, lru: seq<nat>, out: multiset<nat>) {
    && (forall h :: h in entries ==> entries[h].refs > 0 && entries[h].refs == out[h] + (if h in lru then 1 else 0))
    && (forall h :: out[h] > 0 ==> h in entries)
  }

  /** Of the handles given out so far, those below `next`, every one is either unfreed or its deleter has
      run, and no deleter runs twice. */
  ghost predicate FreedOK(entries: Handles, freed: seq<nat>, next: nat) {
    && Once(freed) && (forall h :: h in freed ==> h !in entries)
    && (forall h: nat :: h in entries || h in freed <==> h < next)
  }

  ghost predicate CacheOK(entries: Handles, lru: seq<nat>, table: Contents, usage: nat, out: multiset<nat>, freed: seq<nat>, next: nat) {
    && ListOK(entries, lru, table) && RefsOK(entries, lru, out) && FreedOK(entries, freed, next)
    && usage == Charges(entries)
  }

  /** The list without one handle. */
  function Without(lru: seq<nat>, h: nat): (r: seq<nat>)
    ensures forall x :: x in r <==> x in lru && x != h
  {
    if lru == [] then []
    else
      assert lru == [lru[0]] + lru[1..];
      (if lru[0] == h then [] else [lru[0]]) + Without(lru[1..], h)
  }

  lemma {:induction false} WithoutOnce(lru: seq<nat>, h: nat)
    requires Once(lru)
    ensures Once(Without(lru, h)) && (h !in lru ==> Without(lru, h) == lru)
    ensures |Without(lru, h)| == if h in lru then |lru| - 1 else |lru|
  {
    if lru != [] {
      assert Once(lru[1..]) && lru == [lru[0]] + lru[1..];
      WithoutOnce(lru[1..], h);
      assert lru[0] !in lru[1..];
    }
  }

  // ---------------------------------------------------------------- references

  /** What Unref does: the last reference gone, the deleter runs and the entry is freed. */
  function UnrefEntries(entries: Handles, h: nat): Handles
    requires h in entries && entries[h].refs > 0
  {
    if entries[h].refs == 1 then entries - {h} else entries[h := entries[h].(refs := entries[h].refs - 1)]
  }

  function UnrefUsage(entries: Handles, usage: nat, h: nat): int
    requires h in entries
  {
    if entries[h].refs == 1 then usage - entries[h].charge else usage
  }

  function UnrefFreed(entries: Handles, freed: seq<nat>, h: nat): seq<nat>
    requires h in entries
  {
    if entries[h].refs == 1 then freed + [h] else freed
  }

  lemma UnrefUsageIs(entries: Handles, usage: nat, h: nat)
    requires h in entries && entries[h].refs > 0 && usage == Charges(entries)
    ensures UnrefUsage(entries, usage, h) == Charges(UnrefEntries(entries, h)) >= 0
  {
    ChargesWithout(entries, h);
    ChargesSame(entries, h, entries[h].(refs := entries[h].refs - 1));
  }

  /** Taking a resident entry out of the table and the list, and dropping the cache's reference. */
  lemma DropKeeps(entries: Handles, lru: seq<nat>, table: Contents, usage: nat, out: multiset<nat>, freed: seq<nat>, next: nat, h: nat)
    requires CacheOK(entries, lru, table, usage, out, freed, next) && h in lru
    ensures h in entries && entries[h].refs > 0 && UnrefUsage(entries, usage, h) >= 0
    ensures CacheOK(UnrefEntries(entries, h), Without(lru, h), table - {entries[h].key}, UnrefUsage(entries, usage, h),
                    out, UnrefFreed(entries, freed, h), next)
  {
    assert h in entries && entries[h].refs > 0;
    hide ListOK, RefsOK, FreedOK, Charges;
    UnrefUsageIs(entries, usage, h);
    DropList(entries, lru, table, h);
    DropRefs(entries, lru, out, h);
    UnrefKeepsFreed(entries, freed, next, h);
  }

  lemma DropList(entries: Handles, lru: seq<nat>, table: Contents, h: nat)
    requires ListOK(entries, lru, table) && h in lru && h in entries && entries[h].refs > 0
    ensures ListOK(UnrefEntries(entries, h), Without(lru, h), table - {entries[h].key})
  {
    WithoutOnce(lru, h);
  }

  lemma DropRefs(entries: Handles, lru: seq<nat>, out: multiset<nat>, h: nat)
    requires RefsOK(entries, lru, out) && h in lru && h in entries
    ensures entries[h].refs > 0 && RefsOK(UnrefEntries(entries, h), Without(lru, h), out)
  {
  }

  lemma UnrefKeepsFreed(entries: Handles, freed: seq<nat>, next: nat, h: nat)
    requires FreedOK(entries, freed, next) && h in entries && entries[h].refs > 0
    ensures FreedOK(UnrefEntries(entries, h), UnrefFreed(entries, freed, h), next)
  {
  }

  lemma ReleaseKeeps(entries: Handles, lru: seq<nat>, table: Contents, usage: nat, out: multiset<nat>, freed: seq<nat>, next: nat, h: nat)
    requires CacheOK(entries, lru, table, usage, out, freed, next) && out[h] > 0
    ensures h in entries && entries[h].refs > 0 && UnrefUsage(entries, usage, h) >= 0
    ensures CacheOK(UnrefEntries(entries, h), lru, table, UnrefUsage(entries, usage, h),
                    out - multiset{h}, UnrefFreed(entries, freed, h), next)
  {
    assert h in entries && entries[h].refs > 0;
    assert ListOK(UnrefEntries(entries, h), lru, table) && RefsOK(UnrefEntries(entries, h), lru, out - multiset{h});
    hide ListOK, RefsOK, FreedOK, Charges;
    UnrefUsageIs(entries, usage, h);
    UnrefKeepsFreed(entries, freed, next, h);
  }

  /** A lookup takes a reference and makes the entry the newest one. */
  lemma TouchKeeps(entries: Handles, lru: seq<nat>, table: Contents, usage: nat, out: multiset<nat>, freed: seq<nat>, next: nat, h: nat)
    requires CacheOK(entries, lru, table, usage, out, freed, next) && h in lru
    ensures h in entries
    ensures CacheOK(entries[h := entries[h].(refs := entries[h].refs + 1)], Without(lru, h) + [h], table, usage,
                    out + multiset{h}, freed, next)
  {
    assert h in entries;
    var e := entries[h].(refs := entries[h].refs + 1);
    hide ListOK, RefsOK, FreedOK, Charges;
    ChargesSame(entries, h, e);
    TouchList(entries, lru, table, h, e);
    TouchRefs(entries, lru, out, h);
    assert FreedOK(entries[h := e], freed, next) by { TouchFreed(entries, freed, next, h, e); }
  }

  lemma TouchList(entries: Handles, lru: seq<nat>, table: Contents, h: nat, e: Handle)
    requires ListOK(entries, lru, table) && h in lru && h in entries && e.key == entries[h].key
    ensures ListOK(entries[h := e], Without(lru, h) + [h], table)
  {
    WithoutOnce(lru, h);
  }

  lemma TouchRefs(entries: Handles, lru: seq<nat>, out: multiset<nat>, h: nat)
    requires RefsOK(entries, lru, out) && h in lru && h in entries
    ensures RefsOK(entries[h := entries[h].(refs := entries[h].refs + 1)], Without(lru, h) + [h], out + multiset{h})
  {
  }

  lemma TouchFreed(entries: Handles, freed: seq<nat>, next: nat, h: nat, e: Handle)
    requires FreedOK(entries, freed, next) && h in entries
    ensures FreedOK(entries[h := e], freed, next)
  {
  }

  /** A new entry for a key that is not in the table: one reference for the cache, one for the caller. */
  lemma AddKeeps(entries: Handles, lru: seq<nat>, table: Contents, usage: nat, out: multiset<nat>, freed: seq<nat>, next: nat,
                 h: nat, e: Handle)
    requires CacheOK(entries, lru, table, usage, out, freed, next)
    requires h == next && e.key !in table && e.refs == 2
    ensures CacheOK(entries[h := e], lru + [h], table[e.key := h], usage + e.charge, out + multiset{h}, freed, next + 1)
  {
    ChargesAdd(entries, h, e);
  }

  class LRUCache {
    const capacity: nat
    const table: HandleTable
    var entries: Handles          // the unfreed LRUHandles
    var lru: seq<nat>             // the list, oldest first
    var usage: nat
    var freed: seq<nat>           // the handles whose deleter has run
    var nextHandle: nat
    ghost var out: multiset<nat>  // handles that callers hold

    ghost predicate Valid()
      reads this, table, table.list
    {
      table.Valid() && CacheOK(entries, lru, table.contents, usage, out, freed, nextHandle)
    }

    constructor (capacity: nat, hash: Hash)
      ensures Valid() && entries == map[] && out == multiset{} && fresh(table) && fresh(table.list)
    {
      this.capacity := capacity;
      table := new HandleTable(hash);
      entries, lru, usage, freed, nextHandle, out := map[], [], 0, [], 0, multiset{};
    }

    method Unref(h: nat)
      requires h in entries && entries[h].refs > 0 && UnrefUsage(entries, usage, h) >= 0
      modifies this`entries, this`usage, this`freed
      ensures entries == UnrefEntries(old(entries), h) && usage == UnrefUsage(old(entries), old(usage), h)
      ensures freed == UnrefFreed(old(entries), old(freed), h)
    {
      var e := entries[h];
      if e.refs == 1 {
        usage := usage - e.charge;
        freed := freed + [h];
        entries := entries - {h};
      } else {
        entries := entries[h := e.(refs := e.refs - 1)];
      }
    }

    method Lookup(key: Bytes) returns (r: Option<nat>)
      requires Valid()
      modifies this
      ensures Valid() && table.contents == old(table.contents) && freed == old(freed) && nextHandle == old(nextHandle)
      ensures entries.Keys == old(entries.Keys) && Shrunk(entries, old(entries))
      ensures key !in table.contents ==> r == None && unchanged(this)
      ensures key in table.contents ==>
                var h := table.contents[key];
                r == Some(h) && lru == Without(old(lru), h) + [h] && out == old(out) + multiset{h}
    {
      hide CacheOK, HandleTable.Valid, Charges;
      InTable(entries, lru, table.contents, usage, out, freed, nextHandle, key);
      r := table.Lookup(key);
      if r.Some? {
        var h := r.value;
        TouchKeeps(entries, lru, table.contents, usage, out, freed, nextHandle, h);
        entries := entries[h := entries[h].(refs := entries[h].refs + 1)];
        lru := Without(lru, h);
        lru := lru + [h];
        out := out + multiset{h};
      }
    }

    method Release(h: nat)
      requires Valid() && out[h] > 0
      modifies this
      ensures Valid() && table.contents == old(table.contents) && lru == old(lru) && out == old(out) - multiset{h}
      ensures h in old(entries) && nextHandle == old(nextHandle) && Shrunk(entries, old(entries))
      // the last caller of an entry that has left the cache frees it
      ensures var gone := old(out)[h] == 1 && h !in lru;
        && freed == (if gone then old(freed) + [h] else old(freed))
        && entries.Keys == if gone then old(entries.Keys) - {h} else old(entries.Keys)
    {
      hide CacheOK, HandleTable.Valid, Charges;
      hide Shrunk;
      ReleaseKeeps(entries, lru, table.contents, usage, out, freed, nextHandle, h);
      UnrefMeans(entries, lru, table.contents, usage, out, freed, nextHandle, h);
      HeldElsewhere(entries, lru, table.contents, usage, out, freed, nextHandle, h);
      Unref(h);
      out := out - multiset{h};
    }

    method Erase(key: Bytes)
      requires Valid()
      modifies this, table, table.list
      ensures Valid() && table.contents == old(table.contents) - {key} && out == old(out)
      ensures var was := old(table.contents); lru == if key in was then Without(old(lru), was[key]) else old(lru)
      ensures nextHandle == old(nextHandle) && Shrunk(entries, old(entries))
      // the entry is freed now if no caller holds it
      ensures var dropped := Replaced(old(table.contents), key);
        freed == old(freed) + Unheld(dropped, out) && entries.Keys == old(entries.Keys) - Elements(Unheld(dropped, out))
    {
      hide CacheOK, HandleTable.Valid, Charges;
      InTable(entries, lru, table.contents, usage, out, freed, nextHandle, key);
      ghost var contents := table.contents;
      var r := table.Remove(key);
      if r.Some? {
        DropKeeps(entries, lru, contents, usage, out, freed, nextHandle, r.value);
        UnrefMeans(entries, lru, contents, usage, out, freed, nextHandle, r.value);
        UnheldOne(r.value, out);
        lru := Without(lru, r.value);
        Unref(r.value);
      } else {
        assert contents - {key} == contents;
        ShrunkNot(entries);
      }
    }

    /** Insert. An entry of the same key is dropped, the new one is the newest, and then the oldest
        entries go while the cache is too full: `n` of them. */
    method Insert(key: Bytes, value: int, charge: nat) returns (h: nat, ghost n: nat)
      requires Valid()
      modifies this, table, table.list
      ensures Valid() && h == old(nextHandle) && out == old(out) + multiset{h}
      ensures h in entries && entries[h].key == key && entries[h].value == value && entries[h].charge == charge
      ensures var all := Newest(old(lru), old(table.contents), key, h);
        && n <= |all| && lru == all[n..]
        && freed == old(freed) + Unheld(Replaced(old(table.contents), key), out) + Unheld(all[..n], out)
        && entries.Keys == old(entries.Keys) + {h} - Elements(Unheld(Replaced(old(table.contents), key), out)) -
                           Elements(Unheld(all[..n], out))
        && (n > 0 && all[n-1] != h ==> all[n-1] in old(entries) && usage + old(entries)[all[n-1]].charge > capacity)
      ensures nextHandle == h + 1 && Shrunk(entries - {h}, old(entries))
      ensures usage <= capacity || lru == []
    {
      hide CacheOK, HandleTable.Valid, Charges, Without, Once, Shrunk, Unheld, Elements, Newest, Replaced;
      h := AddNewest(key, value, charge);
      ghost var middle := entries;
      n := Evict();
      ShrunkBoth(entries, middle, old(entries), h);
      HeldIsThere(entries, lru, table.contents, usage, out, freed, nextHandle, h);
    }

    /** The part of Insert before the eviction. */
    method AddNewest(key: Bytes, value: int, charge: nat) returns (h: nat)
      requires Valid()
      modifies this, table, table.list
      ensures Valid() && h == old(nextHandle) && out == old(out) + multiset{h} && nextHandle == h + 1
      ensures h in entries && entries[h].key == key && entries[h].value == value && entries[h].charge == charge
      ensures lru == Newest(old(lru), old(table.contents), key, h) && Shrunk(entries - {h}, old(entries))
      ensures freed == old(freed) + Unheld(Replaced(old(table.contents), key), out)
      ensures entries.Keys == old(entries.Keys) + {h} - Elements(Unheld(Replaced(old(table.contents), key), out))
      ensures table.list == old(table.list) || fresh(table.list)
    {
      hide CacheOK, HandleTable.Valid, Charges, Without, Once, Shrunk, Unheld, Elements, UnrefEntries, UnrefFreed, UnrefUsage;
      h := nextHandle;
      InTable(entries, lru, table.contents, usage, out, freed, nextHandle, key);
      InsertKeeps(entries, lru, table.contents, usage, out, freed, nextHandle, h, Handle(key, value, charge, 2));
      InsertMeans(entries, lru, table.contents, usage, out, freed, nextHandle, h, Handle(key, value, charge, 2));
      nextHandle := nextHandle + 1;
      entries := entries[h := Handle(key, value, charge, 2)];
      lru := lru + [h];
      usage := usage + charge;
      out := out + multiset{h};
      var old_ := table.Insert(key, h);
      if old_.Some? {
        lru := Without(lru, old_.value);
        Unref(old_.value);
      }
    }

    /** The eviction loop, oldest first, no more than needed. */
    method Evict() returns (ghost n: nat)
      requires Valid()
      modifies this`entries, this`lru, this`usage, this`freed, table, table.list
      ensures Valid() && n <= |old(lru)| && lru == old(lru)[n..]
      ensures usage <= capacity || lru == []
      ensures n > 0 ==> var last := old(lru)[n-1]; last in old(entries) && usage + old(entries)[last].charge > capacity
      ensures Shrunk(entries, old(entries))
      ensures freed == old(freed) + Unheld(old(lru)[..n], out)
      ensures entries.Keys == old(entries.Keys) - Elements(Unheld(old(lru)[..n], out))
    {
      hide CacheOK, HandleTable.Valid, Charges, Without, Once, Shrunk, Unheld, Elements, UnrefEntries;
      n := 0;
      assert Shrunk(entries, entries) by { ShrunkNot(entries); }
      assert lru[..0] == [];
      UnheldNone(out);
      while usage > capacity && lru != []
        invariant Valid() && n <= |old(lru)| && lru == old(lru)[n..]
        invariant Shrunk(entries, old(entries)) && freed == old(freed) + Unheld(old(lru)[..n], out)
        invariant entries.Keys == old(entries.Keys) - Elements(Unheld(old(lru)[..n], out))
        invariant n > 0 ==> var last := old(lru)[n-1]; last in old(entries) && usage + old(entries)[last].charge > capacity
        invariant table.list == old(table.list) || fresh(table.list)
        decreases |lru|
      {
        ghost var last := lru[0];
        ghost var was := entries;
        EvictOldest();
        ShrunkMore(entries, was, old(entries), last);
        UnheldMore(old(lru)[..n], last, out);
        assert old(lru)[..n] + [last] == old(lru)[..n+1];
        n := n + 1;
      }
    }

    method EvictOldest()
      requires Valid() && lru != []
      modifies this`entries, this`lru, this`usage, this`freed, table, table.list
      ensures Valid() && lru == old(lru)[1..] && (table.list == old(table.list) || fresh(table.list))
      ensures old(lru[0]) in old(entries) && usage + old(entries)[old(lru[0])].charge >= old(usage)
      ensures old(entries)[old(lru[0])].refs > 0 && entries == UnrefEntries(old(entries), old(lru[0]))
      ensures freed == old(freed) + (if out[old(lru[0])] == 0 then [old(lru[0])] else [])
      ensures entries.Keys == old(entries.Keys) - (if out[old(lru[0])] == 0 then {old(lru[0])} else {})
    {
      hide CacheOK, HandleTable.Valid, Charges, Without, Once, Shrunk;
      var oldest := lru[0];
      DropOldest(entries, lru, table.contents, usage, out, freed, nextHandle);
      UnrefMeans(entries, lru, table.contents, usage, out, freed, nextHandle, oldest);
      var key := entries[oldest].key;
      lru := Without(lru, oldest);
      var r := table.Remove(key);
      Unref(oldest);
    }
  }

  /** The list once the entry of the key is replaced by h, the newest one. */
  function Newest(lru: seq<nat>, table: Contents, key: Bytes, h: nat): seq<nat> {
    (if key in table then Without(lru, table[key]) else lru) + [h]
  }

  /** The handle, if any, that an insertion of the key takes out of the cache. */
  function Replaced(table: Contents, key: Bytes): seq<nat> {
    if key in table then [table[key]] else []
  }

  /** Those of the handles that no caller holds. */
  ghost function Unheld(handles: seq<nat>, out: multiset<nat>): (r: seq<nat>)
    ensures forall h :: h in r <==> h in handles && out[h] == 0
  {
    if handles == [] then []
    else
      var n := |handles| - 1;
      assert handles == handles[..n] + [handles[n]];
      Unheld(handles[..n], out) + if out[handles[n]] == 0 then [handles[n]] else []
  }

  /** Dropping a reference frees the entry exactly if it was the last one: the cache's, when no caller
      holds the entry, or a caller's, when the entry has left the cache. */
  lemma UnrefMeans(entries: Handles, lru: seq<nat>, table: Contents, usage: nat, out: multiset<nat>, freed: seq<nat>, next: nat, h: nat)
    requires CacheOK(entries, lru, table, usage, out, freed, next) && h in entries
    ensures entries[h].refs > 0 && Shrunk(UnrefEntries(entries, h), entries)
    ensures var gone := out[h] == if h in lru then 0 else 1;
      && UnrefFreed(entries, freed, h) == (if gone then freed + [h] else freed)
      && UnrefEntries(entries, h).Keys == if gone then entries.Keys - {h} else entries.Keys
  {
  }

  /** A handle that is out and no longer in the list has only callers' references. */
  lemma HeldElsewhere(entries: Handles, lru: seq<nat>, table: Contents, usage: nat, out: multiset<nat>, freed: seq<nat>, next: nat, h: nat)
    requires CacheOK(entries, lru, table, usage, out, freed, next) && out[h] > 0
    ensures h in entries && (out[h] == (if h in lru then 0 else 1) <==> out[h] == 1 && h !in lru)
  {
  }

  lemma UnheldOne(h: nat, out: multiset<nat>)
    ensures Unheld([h], out) == if out[h] == 0 then [h] else []
    ensures Elements(Unheld([h], out)) == if out[h] == 0 then {h} else {}
  {
    UnheldMore([], h, out);
    assert [] + [h] == [h];
  }

  lemma UnheldNone(out: multiset<nat>)
    ensures Unheld([], out) == [] && Elements([]) == {}
  {
  }

  /** What inserting does to the other entries before anything is evicted. */
  lemma InsertMeans(entries: Handles, lru: seq<nat>, table: Contents, usage: nat, out: multiset<nat>, freed: seq<nat>, next: nat,
                    h: nat, e: Handle)
    requires CacheOK(entries, lru, table, usage, out, freed, next) && h == next && e.refs == 2
    ensures var entries1, out1 := entries[h := e], out + multiset{h};
      if e.key in table then
        var o := table[e.key];
        && o in entries1 && entries1[o].refs > 0
        && UnrefFreed(entries1, freed, o) == freed + Unheld([o], out1)
        && UnrefEntries(entries1, o).Keys == entries.Keys + {h} - Elements(Unheld([o], out1))
        && Shrunk(UnrefEntries(entries1, o) - {h}, entries)
        && h in UnrefEntries(entries1, o) && UnrefEntries(entries1, o)[h] == e
      else
        && freed == freed + Unheld([], out1) && entries1.Keys == entries.Keys + {h} - Elements(Unheld([], out1))
        && Shrunk(entries1 - {h}, entries)
  {
    hide CacheOK, Unheld, Elements, UnrefEntries;
    NewIsNew(entries, lru, table, usage, out, freed, next);
    if e.key in table {
      var o := table[e.key];
      InTable(entries, lru, table, usage, out, freed, next, e.key);
      UnrefMeans(entries, lru, table, usage, out, freed, next, o);
      UnheldOne(o, out + multiset{h});
      SwapUnref(entries, h, e, o);
    } else {
      UnheldNone(out + multiset{h});
    }
  }

  lemma NewIsNew(entries: Handles, lru: seq<nat>, table: Contents, usage: nat, out: multiset<nat>, freed: seq<nat>, next: nat)
    requires CacheOK(entries, lru, table, usage, out, freed, next)
    ensures next !in entries
  {
    assert FreedOK(entries, freed, next);
  }

  /** Surviving two steps, apart from one new handle. */
  lemma ShrunkBoth(entries: Handles, middle: Handles, was: Handles, h: nat)
    requires Shrunk(entries, middle) && Shrunk(middle - {h}, was)
    ensures Shrunk(entries - {h}, was)
    ensures h in entries ==> h in middle && SameBut(entries[h], middle[h])
    ensures forall x :: x in middle && x != h ==> x in was && middle[x].charge == was[x].charge
  {
  }

  lemma UnheldMore(handles: seq<nat>, h: nat, out: multiset<nat>)
    ensures Unheld(handles + [h], out) == Unheld(handles, out) + if out[h] == 0 then [h] else []
    ensures Elements(Unheld(handles + [h], out)) == Elements(Unheld(handles, out)) + if out[h] == 0 then {h} else {}
  {
    assert (handles + [h])[..|handles|] == handles;
  }

  function Elements(handles: seq<nat>): set<nat> { set h | h in handles }

  /** Some entries are gone; the others are equal apart from the references. */
  ghost predicate Shrunk(entries: Handles, was: Handles) {
    forall x :: x in entries ==> x in was && SameBut(entries[x], was[x])
  }

  lemma ShrunkNot(entries: Handles)
    ensures Shrunk(entries, entries)
  {
  }

  lemma ShrunkMore(entries: Handles, was: Handles, first: Handles, h: nat)
    requires Shrunk(was, first) && h in was && was[h].refs > 0 && entries == UnrefEntries(was, h)
    ensures Shrunk(entries, first) && h in first && first[h].charge == was[h].charge
  {
  }

  /** Equal apart from the references. */
  predicate SameBut(a: Handle, b: Handle) { a.key == b.key && a.value == b.value && a.charge == b.charge }

  lemma HeldIsThere(entries: Handles, lru: seq<nat>, table: Contents, usage: nat, out: multiset<nat>, freed: seq<nat>, next: nat, h: nat)
    requires CacheOK(entries, lru, table, usage, out, freed, next) && out[h] > 0
    ensures h in entries && h !in freed
  {
  }

  lemma DropOldest(entries: Handles, lru: seq<nat>, table: Contents, usage: nat, out: multiset<nat>, freed: seq<nat>, next: nat)
    requires CacheOK(entries, lru, table, usage, out, freed, next) && lru != []
    ensures var h := lru[0];
      && h in entries && entries[h].refs > 0 && UnrefUsage(entries, usage, h) >= 0 && Without(lru, h) == lru[1..]
      && CacheOK(UnrefEntries(entries, h), lru[1..], table - {entries[h].key}, UnrefUsage(entries, usage, h),
                 out, UnrefFreed(entries, freed, h), next)
  {
    DropKeeps(entries, lru, table, usage, out, freed, next, lru[0]);
    assert lru == [lru[0]] + lru[1..] && lru[0] !in lru[1..] && Once(lru[1..]);
    WithoutOnce(lru[1..], lru[0]);
  }

  /** A new entry, after the one of its key, if there is one, has been dropped. */
  lemma InsertKeeps(entries: Handles, lru: seq<nat>, table: Contents, usage: nat, out: multiset<nat>, freed: seq<nat>, next: nat,
                    h: nat, e: Handle)
    requires CacheOK(entries, lru, table, usage, out, freed, next) && h == next && e.refs == 2
    ensures var entries1 := entries[h := e];
      if e.key in table then
        var o := table[e.key];
        && o in entries1 && entries1[o].refs > 0 && UnrefUsage(entries1, usage + e.charge, o) >= 0
        && CacheOK(UnrefEntries(entries1, o), Without(lru + [h], o), table[e.key := h],
                   UnrefUsage(entries1, usage + e.charge, o), out + multiset{h}, UnrefFreed(entries1, freed, o), next + 1)
        && Without(lru + [h], o) == Without(lru, o) + [h]
      else CacheOK(entries1, lru + [h], table[e.key := h], usage + e.charge, out + multiset{h}, freed, next + 1)
  {
    hide CacheOK, Charges, Without;
    if e.key in table {
      var o := table[e.key];
      InTable(entries, lru, table, usage, out, freed, next, e.key);
      DropKeeps(entries, lru, table, usage, out, freed, next, o);
      NotGivenYet(entries, lru, table, usage, out, freed, next, o);
      AddKeeps(UnrefEntries(entries, o), Without(lru, o), table - {e.key}, UnrefUsage(entries, usage, o), out,
               UnrefFreed(entries, freed, o), next, h, e);
      WithoutAppend(lru, h, o);
      SwapUnref(entries, h, e, o);
      PutBack(table, e.key, h);
    } else {
      AddKeeps(entries, lru, table, usage, out, freed, next, h, e);
    }
  }

  lemma NotGivenYet(entries: Handles, lru: seq<nat>, table: Contents, usage: nat, out: multiset<nat>, freed: seq<nat>, next: nat, o: nat)
    requires CacheOK(entries, lru, table, usage, out, freed, next) && o in entries
    ensures next !in entries && next !in freed && next != o
  {
  }

  /** Adding an entry and dropping a reference to another one can be swapped. */
  lemma SwapUnref(entries: Handles, h: nat, e: Handle, o: nat)
    requires h != o && o in entries && entries[o].refs > 0
    ensures UnrefEntries(entries[h := e], o) == UnrefEntries(entries, o)[h := e]
  {
  }

  lemma PutBack<K, V>(m: map<K, V>, k: K, v: V)
    ensures (m - {k})[k := v] == m[k := v]
  {
  }

  lemma {:induction false} WithoutAppend(lru: seq<nat>, h: nat, o: nat)
    requires h != o
    ensures Without(lru + [h], o) == Without(lru, o) + [h]
  {
    if lru != [] {
      assert (lru + [h])[1..] == lru[1..] + [h];
      WithoutAppend(lru[1..], h, o);
    }
  }

  /** A key of the table belongs to a resident entry. */
  lemma InTable(entries: Handles, lru: seq<nat>, table: Contents, usage: nat, out: multiset<nat>, freed: seq<nat>, next: nat, key: Bytes)
    requires CacheOK(entries, lru, table, usage, out, freed, next)
    ensures key in table ==> table[key] in lru && table[key] in entries && entries[table[key]].key == key
  {
  }
}
