/** Byte strings and the bytewise comparator (leveldb/util/comparator.cc).

    The engine only ever compares user keys, so the modules above this one work with the *rank* of
    a byte string: its position in the bytewise order, as a real number. `RankOrder` is the licence
    for that: the ranks of two byte strings compare exactly as the strings do. */
module Slices {
  type byte = b: int | 0 <= b < 256
  type Bytes = seq<byte>

  /** Slice::compare: negative, zero or positive. A proper prefix is smaller. */
  function Compare(a: Bytes, b: Bytes): int {
    if a == [] then (if b == [] then 0 else -1)
    else if b == [] then 1
    else if a[0] != b[0] then a[0] as int - b[0] as int
    else Compare(a[1..], b[1..])
  }

  /** Position of `a` in the bytewise order, in the interval [0, 1). */
  function Rank(a: Bytes): (r: real)
    ensures 0.0 <= r < 1.0
    ensures r == 0.0 <==> a == []
  {
    if a == [] then 0.0 else ((a[0] as int + 1) as real + Rank(a[1..])) / 257.0
  }

  lemma {:induction false} RankOrder(a: Bytes, b: Bytes)
    ensures Compare(a, b) < 0 <==> Rank(a) < Rank(b)
    ensures Compare(a, b) == 0 <==> a == b
    ensures Rank(a) == Rank(b) <==> a == b
  {
    if a != [] && b != [] {
      RankOrder(a[1..], b[1..]);
      if a[0] == b[0] {
        assert a == [a[0]] + a[1..] && b == [b[0]] + b[1..];
      }
    }
  }

  /** Length of the longest common prefix. */
  function CommonPrefix(a: Bytes, b: Bytes): (n: nat)
    ensures n <= |a| && n <= |b| && a[..n] == b[..n]
    ensures n < |a| && n < |b| ==> a[n] != b[n]
  {
    if a == [] || b == [] || a[0] != b[0] then 0
    else
      assert a == [a[0]] + a[1..] && b == [b[0]] + b[1..];
      1 + CommonPrefix(a[1..], b[1..])
  }

  lemma {:induction false} CommonPrefixIs(a: Bytes, b: Bytes, n: nat)
    requires n <= |a| && n <= |b| && a[..n] == b[..n] && (n < |a| && n < |b| ==> a[n] != b[n])
    ensures n == CommonPrefix(a, b)
  {
    if n > 0 {
      assert a[0] == a[..n][0] && b[0] == b[..n][0];
      assert a[1..][..n-1] == a[..n][1..] && b[1..][..n-1] == b[..n][1..];
      CommonPrefixIs(a[1..], b[1..], n - 1);
    }
  }

  /** The first difference decides a comparison. */
  lemma {:induction false} CompareAtFirstDifference(a: Bytes, b: Bytes)
    ensures var n := CommonPrefix(a, b);
      Compare(a, b) == if n < |a| && n < |b| then a[n] as int - b[n] as int
                       else if n < |b| then -1 else if n < |a| then 1 else 0
  {
    if a != [] && b != [] && a[0] == b[0] {
      CompareAtFirstDifference(a[1..], b[1..]);
    }
  }

  /** FindShortestSeparator edits `start` to a short string in [start, limit). */
  method FindShortestSeparator(start: Bytes, limit: Bytes) returns (sep: Bytes)
    ensures |sep| <= |start|
    ensures Compare(start, sep) <= 0
    ensures Compare(start, limit) < 0 ==> Compare(sep, limit) < 0
    ensures sep != start ==> Compare(start, limit) < 0 && Compare(start, sep) < 0
    ensures var n := CommonPrefix(start, limit);
      sep == if n < |start| && n < |limit| && start[n] as int + 1 < limit[n] as int
             then start[..n] + [(start[n] + 1) as byte] else start
  {
    var minLength := if |start| <= |limit| then |start| else |limit|;
    var diff := 0;
    while diff < minLength && start[diff] == limit[diff]
      invariant diff <= minLength
      invariant start[..diff] == limit[..diff]
    {
      diff := diff + 1;
    }
    sep := start;
    CompareSelf(start);
    CommonPrefixIs(start, limit, diff);
    if diff < minLength {
      if start[diff] < 255 && start[diff] + 1 < limit[diff] {
        sep := start[..diff] + [start[diff] + 1];
        CompareSplit(start, sep, diff);
        CompareSplit(sep, limit, diff);
        CompareSplit(start, limit, diff);
      }
    }
  }

  /** FindShortSuccessor: a short string at or after `key`. */
  method FindShortSuccessor(key: Bytes) returns (succ: Bytes)
    ensures |succ| <= |key|
    ensures Compare(key, succ) <= 0
    ensures succ == key <==> forall i :: 0 <= i < |key| ==> key[i] == 255
    ensures forall i :: 0 <= i < |key| && key[i] != 255 && (forall j :: 0 <= j < i ==> key[j] == 255) ==>
              succ == key[..i] + [(key[i] + 1) as byte]
  {
    CompareSelf(key);
    for i := 0 to |key|
      invariant forall j :: 0 <= j < i ==> key[j] == 255
    {
      if key[i] != 255 {
        succ := key[..i] + [key[i] + 1];
        CompareSplit(key, succ, i);
        assert succ[i] != key[i];
        return;
      }
    }
    succ := key;
  }

  lemma {:induction false} CompareSelf(a: Bytes)
    ensures Compare(a, a) == 0
  {
    if a != [] { CompareSelf(a[1..]); }
  }

  /** Two strings that agree before `n` and differ at `n` compare as their bytes at `n`. */
  lemma {:induction false} CompareSplit(a: Bytes, b: Bytes, n: nat)
    requires n < |a| && n < |b| && a[..n] == b[..n] && a[n] != b[n]
    ensures Compare(a, b) == a[n] as int - b[n] as int
  {
    if n > 0 {
      assert a[0] == a[..n][0] == b[..n][0] == b[0];
      assert a[1..][..n-1] == a[..n][1..] == b[..n][1..] == b[1..][..n-1];
      CompareSplit(a[1..], b[1..], n - 1);
    }
  }
}
