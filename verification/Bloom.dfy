/** Bloom filters (leveldb/util/bloom.cc) and the filter block of a table (leveldb/table/filter_block.cc):
    a key that was added is never ruled out. */
module Bloom {
  import opened Slices
  import opened Options
  import opened Coding

  /** The hash of a key: any function of its bytes. */
  type Hash = Bytes -> Word

  /** The filter: its bits, and how many probes each key has. */
  datatype Filter = Filter(bits: seq<bool>, k: nat)

  /** Rotate right by 17 bits. */
  function Delta(h: Word): Word { h / 0x2_0000 + h % 0x2_0000 * 0x8000 }

  /** The j-th value of the double-hashing sequence. */
  function Probe(h: Word, j: nat): Word {
    if j == 0 then h else (Probe(h, j - 1) + Delta(h)) % WORD
  }

  /** The j-th probe is j rotated hashes away from the hash, in 32-bit arithmetic. */
  lemma {:induction false} ProbeIs(h: Word, j: nat)
    ensures exists delta: Word ::
              && delta % 0x8000 == h / 0x2_0000 && delta / 0x8000 == h % 0x2_0000
              && Probe(h, j) == (h + j * delta) % 0x1_0000_0000
  {
    ProbeSteps(h, j, Delta(h));
  }

  lemma {:induction false} ProbeSteps(h: Word, j: nat, delta: Word)
    requires delta == Delta(h)
    ensures Probe(h, j) == (h + j * delta) % 0x1_0000_0000
  {
    hide Delta;
    if j > 0 {
      ProbeSteps(h, j - 1, delta);
      var before := (j - 1) * delta;
      assert j * delta == before + delta;
      Wraps(h + before, delta);
    } else {
      assert j * delta == 0;
    }
  }

  lemma Wraps(x: nat, y: nat)
    ensures (x % 0x1_0000_0000 + y) % 0x1_0000_0000 == (x + y) % 0x1_0000_0000
  {
  }

  /** Bit i is one of the first k probes of the key. */
  ghost predicate Probes(hash: Hash, key: Bytes, k: nat, bits: nat, i: nat)
    requires bits > 0
  {
    exists j :: 0 <= j < k && Probe(hash(key), j) % bits == i
  }

  function FilterBits(n: nat, bitsPerKey: nat): (bits: nat)
    ensures bits % 8 == 0 && bits >= 64 && bits >= n * bitsPerKey
    ensures bits == 64 || bits < n * bitsPerKey + 8
  {
    var bits := if n * bitsPerKey < 64 then 64 else n * bitsPerKey;
    (bits + 7) / 8 * 8
  }

  /** CreateFilter: exactly the probes of the keys are set. */
  method CreateFilter(hash: Hash, keys: seq<Bytes>, bitsPerKey: nat, k: nat) returns (f: Filter)
    requires 1 <= k <= 30
    ensures f.k == k && |f.bits| == FilterBits(|keys|, bitsPerKey)
    ensures forall i :: 0 <= i < |f.bits| ==> (f.bits[i] <==> exists key :: key in keys && Probes(hash, key, k, |f.bits|, i))
  {
    var bits := FilterBits(|keys|, bitsPerKey);
    var bit := new bool[bits](_ => false);
    for n := 0 to |keys|
      invariant forall i :: 0 <= i < bits ==> (bit[i] <==> exists key :: key in keys[..n] && Probes(hash, key, k, bits, i))
    {
      ghost var was := bit[..];
      AddProbes(hash, keys[n], k, bit);
      assert keys[..n+1] == keys[..n] + [keys[n]];
      forall i | 0 <= i < bits
        ensures bit[i] <==> exists key :: key in keys[..n+1] && Probes(hash, key, k, bits, i)
      {
        assert was[i] <==> exists key :: key in keys[..n] && Probes(hash, key, k, bits, i);
        if bit[i] {
          if was[i] {
            var key :| key in keys[..n] && Probes(hash, key, k, bits, i);
            assert key in keys[..n+1];
          } else {
            assert keys[n] in keys[..n+1];
          }
        }
      }
    }
    assert keys[..|keys|] == keys;
    f := Filter(bit[..], k);
  }

  lemma NoProbes(hash: Hash, key: Bytes, bits: nat)
    requires bits > 0
    ensures forall i :: 0 <= i < bits ==> !Probes(hash, key, 0, bits, i)
  {
  }

  lemma OneMoreProbe(hash: Hash, key: Bytes, j: nat, bits: nat)
    requires bits > 0
    ensures forall i :: 0 <= i < bits ==>
              (Probes(hash, key, j + 1, bits, i) <==> Probes(hash, key, j, bits, i) || i == Probe(hash(key), j) % bits)
  {
    hide Probe;
    forall i | 0 <= i < bits
      ensures Probes(hash, key, j + 1, bits, i) <==> Probes(hash, key, j, bits, i) || i == Probe(hash(key), j) % bits
    {
      if Probes(hash, key, j, bits, i) {
        var n :| 0 <= n < j && Probe(hash(key), n) % bits == i;
      }
    }
  }

  /** The inner loop: set the probes of one key. */
  method AddProbes(hash: Hash, key: Bytes, k: nat, bit: array<bool>)
    requires bit.Length > 0
    modifies bit
    ensures forall i :: 0 <= i < bit.Length ==> (bit[i] <==> old(bit[i]) || Probes(hash, key, k, bit.Length, i))
  {
    hide Probes;
    assert forall i :: 0 <= i < bit.Length ==> !Probes(hash, key, 0, bit.Length, i) by { NoProbes(hash, key, bit.Length); }
    var h := hash(key);
    var delta := Delta(h);
    for j := 0 to k
      invariant h == Probe(hash(key), j)
      invariant forall i :: 0 <= i < bit.Length ==> (bit[i] <==> old(bit[i]) || Probes(hash, key, j, bit.Length, i))
    {
      var position := h % bit.Length;
      OneMoreProbe(hash, key, j, bit.Length);
      bit[position] := true;
      h := (h + delta) % WORD;
    }
  }

  /** KeyMayMatch: all probes of the key are set (or the filter is of an unknown kind). */
  method KeyMayMatch(hash: Hash, key: Bytes, f: Filter) returns (r: bool)
    ensures f.bits == [] ==> !r
    ensures f.bits != [] ==>
              (r <==> f.k > 30 || forall i :: 0 <= i < |f.bits| && Probes(hash, key, f.k, |f.bits|, i) ==> f.bits[i])
  {
    if |f.bits| == 0 {
      return false;
    }
    if f.k > 30 {
      return true;
    }
    var h := hash(key);
    var delta := Delta(h);
    for j := 0 to f.k
      invariant h == Probe(hash(key), j)
      invariant forall i :: 0 <= i < |f.bits| && Probes(hash, key, j, |f.bits|, i) ==> f.bits[i]
    {
      var position := h % |f.bits|;
      if !f.bits[position] {
        assert Probes(hash, key, f.k, |f.bits|, position);
        return false;
      }
      OneMoreProbe(hash, key, j, |f.bits|);
      h := (h + delta) % WORD;
    }
    r := true;
  }

  /** What CreateFilter promises about a filter of these keys. */
  ghost predicate IsFilterOf(hash: Hash, f: Filter, keys: set<Bytes>) {
    && |f.bits| > 0
    && forall i :: 0 <= i < |f.bits| ==> (f.bits[i] <==> exists key :: key in keys && Probes(hash, key, f.k, |f.bits|, i))
  }

  /** The answer for a key: no false negatives. */
  ghost predicate MayMatch(hash: Hash, f: Filter, key: Bytes) {
    f.bits != [] && (f.k > 30 || forall i :: 0 <= i < |f.bits| && Probes(hash, key, f.k, |f.bits|, i) ==> f.bits[i])
  }

  lemma AddedKeyMatches(hash: Hash, f: Filter, keys: set<Bytes>, key: Bytes)
    requires IsFilterOf(hash, f, keys) && key in keys
    ensures MayMatch(hash, f, key)
  {
  }

  // ---------------------------------------------------------------- the filter block

  const FILTER_BASE := 2048

  /** One filter for every 2048 bytes of block offsets; none where no key was added. */
  type Filters = seq<Option<Filter>>

  /** The keys that were added for filter i: those of the blocks that start in its 2048 bytes. */
  ghost function KeysAt(added: seq<(nat, Bytes)>, i: nat): seq<Bytes> {
    if added == [] then []
    else
      var before, last := KeysAt(added[..|added|-1], i), added[|added|-1];
      if last.0 / 2048 == i then before + [last.1] else before
  }

  lemma {:induction false} AddedIsThere(added: seq<(nat, Bytes)>, o: nat, key: Bytes)
    requires (o, key) in added
    ensures key in KeysAt(added, o / 2048)
  {
    var n := |added| - 1;
    if added[n] != (o, key) {
      assert added == added[..n] + [added[n]];
      AddedIsThere(added[..n], o, key);
    }
  }

  lemma {:induction false} NothingAddedYet(added: seq<(nat, Bytes)>, i: nat)
    requires forall n :: 0 <= n < |added| ==> added[n].0 / 2048 < i
    ensures KeysAt(added, i) == []
  {
    if added != [] { NothingAddedYet(added[..|added|-1], i); }
  }

  /** No filter for no keys, or the filter that CreateFilter makes of them. */
  ghost predicate FilterFor(hash: Hash, bitsPerKey: nat, k: nat, f: Option<Filter>, keys: seq<Bytes>) {
    if keys == [] then f == None
    else
      && f.Some? && f.value.k == k && |f.value.bits| == FilterBits(|keys|, bitsPerKey)
      && IsFilterOf(hash, f.value, set x | x in keys)
  }

  ghost predicate AllFiltersFor(hash: Hash, bitsPerKey: nat, k: nat, filters: Filters, added: seq<(nat, Bytes)>) {
    && (forall i :: 0 <= i < |filters| ==> FilterFor(hash, bitsPerKey, k, filters[i], KeysAt(added, i)))
    && (forall n :: 0 <= n < |added| ==> added[n].0 / 2048 <= |filters|)
  }

  class FilterBlockBuilder {
    const hash: Hash
    const bitsPerKey: nat
    const k: nat
    var keys: seq<Bytes>
    var filters: Filters
    ghost var at: nat                      // offset of the block that is being filled
    ghost var added: seq<(nat, Bytes)>     // block offsets and keys so far

    ghost predicate Valid()
      reads this
    {
      && 1 <= k <= 30 && at / 2048 == |filters|
      && AllFiltersFor(hash, bitsPerKey, k, filters, added) && keys == KeysAt(added, |filters|)
    }

    constructor (hash: Hash, bitsPerKey: nat, k: nat)
      requires 1 <= k <= 30
      ensures Valid() && at == 0 && added == []
      ensures this.hash == hash && this.bitsPerKey == bitsPerKey && this.k == k
    {
      this.hash, this.bitsPerKey, this.k := hash, bitsPerKey, k;
      keys, filters, at, added := [], [], 0, [];
    }

    method StartBlock(offset: nat)
      requires Valid() && offset >= at
      modifies this
      ensures Valid() && at == offset && added == old(added)
    {
      while offset / FILTER_BASE > |filters|
        invariant |filters| <= offset / FILTER_BASE && added == old(added) && 1 <= k <= 30
        invariant AllFiltersFor(hash, bitsPerKey, k, filters, added) && keys == KeysAt(added, |filters|)
        decreases offset / FILTER_BASE - |filters|
      {
        GenerateFilter();
        NothingAddedYet(added, |filters|);
      }
      at := offset;
    }

    method AddKey(key: Bytes)
      requires Valid()
      modifies this
      ensures Valid() && at == old(at) && added == old(added) + [(at, key)]
    {
      keys := keys + [key];
      added := added + [(at, key)];
      assert added[..|added|-1] == old(added);
    }

    method GenerateFilter()
      requires 1 <= k <= 30
      modifies this`keys, this`filters
      ensures keys == [] && |filters| == |old(filters)| + 1 && old(filters) <= filters
      ensures FilterFor(hash, bitsPerKey, k, filters[|old(filters)|], old(keys))
    {
      if |keys| == 0 {
        filters := filters + [None];
        return;
      }
      var f := CreateFilter(hash, keys, bitsPerKey, k);
      assert IsFilterOf(hash, f, (set x | x in keys));
      filters := filters + [Some(f)];
      keys := [];
    }

    /** Finish: for every 2048 bytes of offsets, the filter of exactly the keys added there. So every key added for
        a block may match at that block's offset. */
    method Finish() returns (result: Filters)
      requires Valid()
      modifies this
      ensures |result| == old(at) / 2048 + if KeysAt(old(added), old(at) / 2048) == [] then 0 else 1
      ensures AllFiltersFor(hash, bitsPerKey, k, result, old(added))
      ensures forall o, key :: (o, key) in old(added) ==> FiltersMayMatch(hash, result, o, key)
    {
      if keys != [] {
        GenerateFilter();
      }
      result := filters;
      forall o, key | (o, key) in added ensures FiltersMayMatch(hash, result, o, key) {
        AddedMayMatch(hash, bitsPerKey, k, result, added, o, key);
      }
    }
  }

  lemma AddedMayMatch(hash: Hash, bitsPerKey: nat, k: nat, filters: Filters, added: seq<(nat, Bytes)>, o: nat, key: Bytes)
    requires AllFiltersFor(hash, bitsPerKey, k, filters, added) && (o, key) in added
    ensures FiltersMayMatch(hash, filters, o, key)
  {
    AddedIsThere(added, o, key);
    var i := o / 2048;
    if i < |filters| {
      var keys := set x | x in KeysAt(added, i);
      assert FilterFor(hash, bitsPerKey, k, filters[i], KeysAt(added, i));
      AddedKeyMatches(hash, filters[i].value, keys, key);
    }
  }

  ghost predicate FiltersMayMatch(hash: Hash, filters: Filters, offset: nat, key: Bytes) {
    var index := offset / 2048;
    index >= |filters| || (filters[index].Some? && MayMatch(hash, filters[index].value, key))
  }

  /** FilterBlockReader::KeyMayMatch. */
  method BlockMayMatch(hash: Hash, filters: Filters, offset: nat, key: Bytes) returns (r: bool)
    ensures r <==> FiltersMayMatch(hash, filters, offset, key)
  {
    var index := offset / FILTER_BASE;
    if index < |filters| {
      if filters[index].None? {
        // Empty filters do not match any keys
        return false;
      }
      r := KeyMayMatch(hash, key, filters[index].value);
    } else {
      r := true;
    }
  }
}
