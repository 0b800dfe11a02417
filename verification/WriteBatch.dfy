/** Write batches (leveldb/db/write_batch.cc): bytes that a handler reads back as the updates that were put
    in, one after the other, also after batches have been appended to each other. */
module WriteBatches {
  import opened Slices
  import opened Options
  import opened Coding

  datatype Op = Put(key: Bytes, value: Bytes) | Delete(key: Bytes)

  const HEADER := 12

  function EncodeFixed64(n: nat): (r: Bytes)
    requires n < WORD64
    ensures |r| == 8
  {
    EncodeFixed32(n % WORD) + EncodeFixed32(n / WORD)
  }

  function DecodeFixed64(b: Bytes): nat
    requires |b| == 8
  {
    DecodeFixed32(b[..4]) + WORD * DecodeFixed32(b[4..])
  }

  lemma Fixed64Bytes(n: nat)
    requires n < WORD64
    ensures var b := EncodeFixed64(n);
      n == b[0] as int + 0x100 * b[1] as int + 0x1_0000 * b[2] as int + 0x100_0000 * b[3] as int
           + 0x1_0000_0000 * b[4] as int + 0x100_0000_0000 * b[5] as int + 0x1_0000_0000_0000 * b[6] as int
           + 0x100_0000_0000_0000 * b[7] as int
  {
    var low, high := EncodeFixed32(n % WORD), EncodeFixed32(n / WORD);
    Fixed32Bytes(n % WORD);
    Fixed32Bytes(n / WORD);
    assert EncodeFixed64(n) == low + high;
    hide EncodeFixed32;
  }

  lemma Fixed64RoundTrip(n: nat)
    requires n < WORD64
    ensures DecodeFixed64(EncodeFixed64(n)) == n
  {
    assert EncodeFixed64(n)[..4] == EncodeFixed32(n % WORD) && EncodeFixed64(n)[4..] == EncodeFixed32(n / WORD);
    Fixed32RoundTrip(n % WORD);
    Fixed32RoundTrip(n / WORD);
  }

  predicate OpOK(op: Op) { |op.key| < WORD && (op.Put? ==> |op.value| < WORD) }

  function Record(op: Op): Bytes {
    match op
    case Put(key, value) => [1] + (LengthPrefixed(key) + LengthPrefixed(value))
    case Delete(key) => [0] + LengthPrefixed(key)
  }

  function Records(ops: seq<Op>): Bytes {
    if ops == [] then [] else Records(ops[..|ops|-1]) + Record(ops[|ops|-1])
  }

  lemma {:induction false} RecordsJoin(a: seq<Op>, b: seq<Op>)
    ensures Records(a + b) == Records(a) + Records(b)
  {
    hide Record;
    if b == [] {
      assert a + b == a;
    } else {
      var n := |b| - 1;
      assert (a + b)[..|a|+n] == a + b[..n] && (a + b)[|a|+n] == b[n];
      RecordsJoin(a, b[..n]);
      assert Records(a + b) == Records(a + b[..n]) + Record(b[n]);
    }
  }

  lemma RecordsFirst(ops: seq<Op>)
    requires ops != []
    ensures Records(ops) == Record(ops[0]) + Records(ops[1..])
  {
    hide Record;
    assert ops == ops[..1] + ops[1..] && ops[..1][..0] == [] && ops[..1][0] == ops[0];
    RecordsJoin(ops[..1], ops[1..]);
    assert Records(ops[..1]) == Records([]) + Record(ops[0]);
  }

  // ---------------------------------------------------------------- what any bytes say

  /** The update in front of the bytes, and what is behind it; None for an unknown tag or a cut string. */
  ghost function OpAt(b: Bytes): (r: Option<(Op, Bytes)>)
    requires b != []
    ensures r.Some? ==> |r.value.1| < |b|
  {
    if b[0] > 1 then None
    else
      match SliceAt(b[1..])
      case None => None
      case Some((key, b1)) =>
        if b[0] == 0 then Some((Op.Delete(key), b1))
        else
          match SliceAt(b1)
          case None => None
          case Some((value, b2)) => Some((Op.Put(key, value), b2))
  }

  /** The updates up to the first that cannot be read, and whether all can. */
  ghost function OpsAt(b: Bytes): (seq<Op>, bool)
    decreases |b|
  {
    if b == [] then ([], true)
    else
      match OpAt(b)
      case None => ([], false)
      case Some((op, rest)) => ([op] + OpsAt(rest).0, OpsAt(rest).1)
  }

  lemma OpInFront(op: Op, tail: Bytes)
    requires OpOK(op)
    ensures Record(op) != [] && OpAt(Record(op) + tail) == Some((op, tail))
  {
    hide LengthPrefixed, SliceAt;
    match op
    case Put(key, value) =>
      BehindTag(1, LengthPrefixed(key) + LengthPrefixed(value), tail);
      Regroup(LengthPrefixed(key), LengthPrefixed(value), tail);
      SliceInFront(key, LengthPrefixed(value) + tail);
      SliceInFront(value, tail);
    case Delete(key) =>
      BehindTag(0, LengthPrefixed(key), tail);
      SliceInFront(key, tail);
  }

  lemma BehindTag(tag: byte, a: Bytes, tail: Bytes)
    ensures ([tag] + a + tail)[0] == tag && ([tag] + a + tail)[1..] == a + tail
  {
  }

  lemma Regroup(a: Bytes, b: Bytes, tail: Bytes)
    ensures a + b + tail == a + (b + tail)
  {
  }

  /** The records of a batch are its updates. */
  lemma {:induction false} OpsOfRecords(ops: seq<Op>)
    requires forall i :: 0 <= i < |ops| ==> OpOK(ops[i])
    ensures OpsAt(Records(ops)) == (ops, true)
  {
    hide Record, OpAt, OpOK, Records;
    if ops == [] {
      NoRecords();
    } else {
      RecordsFirst(ops);
      OpInFront(ops[0], Records(ops[1..]));
      OpsOfRecords(ops[1..]);
      assert ops == [ops[0]] + ops[1..];
    }
  }

  lemma NoRecords()
    ensures Records([]) == []
  {
  }

  class WriteBatch {
    var rep: Bytes
    ghost var ops: seq<Op>
    ghost var sequence: nat

    ghost predicate Valid()
      reads this
    {
      && |ops| < WORD && sequence < WORD64 && (forall i :: 0 <= i < |ops| ==> OpOK(ops[i]))
      && rep == EncodeFixed64(sequence) + EncodeFixed32(|ops|) + Records(ops)
    }

    constructor ()
      ensures Valid() && ops == [] && sequence == 0 && rep == [0, 0, 0, 0, 0, 0, 0, 0, 0, 0, 0, 0]
    {
      rep := seq(HEADER, _ => 0);
      ops, sequence := [], 0;
    }

    function Count(): (n: nat)
      requires Valid()
      reads this
      ensures n == |ops|
    {
      HeaderParts(rep, sequence, ops);
      DecodeFixed32(rep[8..12])
    }

    function Sequence(): (n: nat)
      requires Valid()
      reads this
      ensures n == sequence
    {
      HeaderParts(rep, sequence, ops);
      DecodeFixed64(rep[..8])
    }

    method SetSequence(n: nat)
      requires Valid() && n < WORD64
      modifies this
      ensures Valid() && sequence == n && ops == old(ops) && rep == EncodeFixed64(n) + old(rep)[8..]
    {
      HeaderParts(rep, sequence, ops);
      rep := EncodeFixed64(n) + rep[8..];
      sequence := n;
      assert rep == EncodeFixed64(n) + EncodeFixed32(|ops|) + Records(ops);
    }

    method Put(key: Bytes, value: Bytes)
      requires Valid() && |ops| + 1 < WORD && OpOK(Op.Put(key, value))
      modifies this
      ensures Valid() && ops == old(ops) + [Op.Put(key, value)] && sequence == old(sequence)
      ensures 12 <= |old(rep)| && rep[..12] == old(rep)[..8] + EncodeFixed32(|ops|)
      ensures rep[12..] == old(rep)[12..] + ([1] + Varint(|key|) + key + Varint(|value|) + value)
    {
      hide Record, Records, EncodeFixed64, EncodeFixed32;
      HeaderParts(rep, sequence, ops);
      RecordIs(Op.Put(key, value));
      NextBytes(sequence, ops, Op.Put(key, value), rep);
      rep := rep[..8] + EncodeFixed32(Count() + 1) + rep[12..];
      rep := rep + [1] + LengthPrefixed(key) + LengthPrefixed(value);
      ops := ops + [Op.Put(key, value)];
      assert rep == old(rep)[..8] + EncodeFixed32(|ops|) + old(rep)[12..] + Record(Op.Put(key, value));
    }

    method Delete(key: Bytes)
      requires Valid() && |ops| + 1 < WORD && OpOK(Op.Delete(key))
      modifies this
      ensures Valid() && ops == old(ops) + [Op.Delete(key)] && sequence == old(sequence)
      ensures 12 <= |old(rep)| && rep[..12] == old(rep)[..8] + EncodeFixed32(|ops|)
      ensures rep[12..] == old(rep)[12..] + ([0] + Varint(|key|) + key)
    {
      hide Record, Records, EncodeFixed64, EncodeFixed32;
      HeaderParts(rep, sequence, ops);
      RecordIs(Op.Delete(key));
      NextBytes(sequence, ops, Op.Delete(key), rep);
      rep := rep[..8] + EncodeFixed32(Count() + 1) + rep[12..];
      rep := rep + [0] + LengthPrefixed(key);
      ops := ops + [Op.Delete(key)];
      assert rep == old(rep)[..8] + EncodeFixed32(|ops|) + old(rep)[12..] + Record(Op.Delete(key));
    }

    /** WriteBatchInternal::Append. */
    method Append(src: WriteBatch)
      requires Valid() && src.Valid() && src != this && |ops| + |src.ops| < WORD
      modifies this
      ensures Valid() && ops == old(ops) + src.ops && sequence == old(sequence)
      ensures 12 <= |old(rep)| && 12 <= |src.rep| && rep == old(rep)[..8] + EncodeFixed32(|ops|) + old(rep)[12..] + src.rep[12..]
    {
      hide EncodeFixed64, EncodeFixed32, Records;
      HeaderParts(rep, sequence, ops);
      HeaderParts(src.rep, src.sequence, src.ops);
      RecordsJoin(ops, src.ops);
      ghost var data := Records(ops);
      rep := rep[..8] + EncodeFixed32(Count() + src.Count()) + rep[12..];
      rep := rep + src.rep[HEADER..];
      ops := ops + src.ops;
      assert rep == EncodeFixed64(sequence) + EncodeFixed32(|ops|) + (data + Records(src.ops));
    }

    /** Iterate: what the handler gets, in order, and whether the batch is in order: it can be read to its end, and
        its count is right. */
    method Iterate() returns (found: seq<Op>, ok: bool)
      ensures if |rep| < 12 then found == [] && !ok
        else found == OpsAt(rep[12..]).0 && (ok <==> OpsAt(rep[12..]).1 && |found| == DecodeFixed32(rep[8..12]))
      ensures Valid() ==> found == ops && ok
    {
      hide Records, EncodeFixed64, EncodeFixed32, DecodeFixed32, OpAt;
      if Valid() {
        HeaderParts(rep, sequence, ops);
        OpsOfRecords(ops);
      }
      found := [];
      if |rep| < HEADER {
        return found, false;
      }
      var input := rep[HEADER..];
      assert [] + OpsAt(input).0 == OpsAt(input).0;
      while input != []
        invariant OpsAt(rep[12..]) == (found + OpsAt(input).0, OpsAt(input).1)
        decreases |input|
      {
        var op, rest := ReadRecord(input);
        if op.None? {
          assert found + [] == found;
          return found, false;
        }
        assert found + ([op.value] + OpsAt(rest).0) == (found + [op.value]) + OpsAt(rest).0;
        found := found + [op.value];
        input := rest;
      }
      assert found + [] == found;
      ok := |found| == DecodeFixed32(rep[8..12]);
    }

    /** InsertInto: the i-th update goes to the memtable with the batch's sequence number plus i. */
    method InsertInto() returns (added: seq<(nat, Op)>, ok: bool)
      requires |rep| >= 12
      ensures |added| == |OpsAt(rep[12..]).0|
      ensures forall i :: 0 <= i < |added| ==> added[i] == (DecodeFixed64(rep[..8]) + i, OpsAt(rep[12..]).0[i])
      ensures ok <==> OpsAt(rep[12..]).1 && |added| == DecodeFixed32(rep[8..12])
      ensures Valid() ==> ok && |added| == |ops| && forall i :: 0 <= i < |ops| ==> added[i] == (sequence + i, ops[i])
    {
      hide OpsAt, Records, DecodeFixed64, DecodeFixed32;
      if Valid() { HeaderParts(rep, sequence, ops); }
      hide WriteBatch.Valid;
      var all;
      all, ok := Iterate();
      var next := DecodeFixed64(rep[..8]);
      added := [];
      for i := 0 to |all|
        invariant |added| == i && next == DecodeFixed64(rep[..8]) + i
        invariant forall j :: 0 <= j < i ==> added[j] == (DecodeFixed64(rep[..8]) + j, all[j])
      {
        added := added + [(next, all[i])];
        next := next + 1;
      }
    }
  }

  /** The three parts of the bytes of a batch. */
  lemma HeaderParts(rep: Bytes, sequence: nat, ops: seq<Op>)
    requires |ops| < WORD && sequence < WORD64 && rep == EncodeFixed64(sequence) + EncodeFixed32(|ops|) + Records(ops)
    ensures |rep| >= HEADER && rep[..8] == EncodeFixed64(sequence) && rep[8..12] == EncodeFixed32(|ops|)
    ensures rep[12..] == Records(ops)
    ensures DecodeFixed32(rep[8..12]) == |ops| && DecodeFixed64(rep[..8]) == sequence
  {
    assert rep[..8] == EncodeFixed64(sequence) && rep[8..12] == EncodeFixed32(|ops|);
    Fixed32RoundTrip(|ops|);
    Fixed64RoundTrip(sequence);
  }

  lemma RecordIs(op: Op)
    ensures op.Put? ==> Record(op) == [1] + LengthPrefixed(op.key) + LengthPrefixed(op.value)
    ensures op.Put? ==> Record(op) == [1] + Varint(|op.key|) + op.key + Varint(|op.value|) + op.value
    ensures op.Delete? ==> Record(op) == [0] + LengthPrefixed(op.key) == [0] + Varint(|op.key|) + op.key
  {
  }

  /** The bytes of a batch with one more update. */
  lemma NextBytes(sequence: nat, ops: seq<Op>, op: Op, rep: Bytes)
    requires |ops| + 1 < WORD && sequence < WORD64 && rep == EncodeFixed64(sequence) + EncodeFixed32(|ops|) + Records(ops)
    ensures var rep' := rep[..8] + EncodeFixed32(|ops| + 1) + rep[12..] + Record(op);
      && rep' == EncodeFixed64(sequence) + EncodeFixed32(|ops| + 1) + Records(ops + [op])
      && rep'[..12] == rep[..8] + EncodeFixed32(|ops| + 1) && rep'[12..] == rep[12..] + Record(op)
  {
    hide Record, Records, EncodeFixed64, EncodeFixed32;
    NewRecords(ops, op);
    Parts(EncodeFixed64(sequence), EncodeFixed32(|ops|), Records(ops), rep);
    NewParts(rep[..8], EncodeFixed32(|ops| + 1), rep[12..], Record(op));
  }

  lemma NewRecords(ops: seq<Op>, op: Op)
    ensures Records(ops + [op]) == Records(ops) + Record(op)
  {
    hide Record;
    assert (ops + [op])[..|ops|] == ops;
  }

  lemma Parts(a: Bytes, b: Bytes, c: Bytes, rep: Bytes)
    requires |a| == 8 && |b| == 4 && rep == a + b + c
    ensures rep[..8] == a && rep[12..] == c
  {
  }

  lemma NewParts(a: Bytes, b: Bytes, c: Bytes, d: Bytes)
    requires |a| == 8 && |b| == 4
    ensures a + b + c + d == a + b + (c + d) && (a + b + c + d)[..12] == a + b && (a + b + c + d)[12..] == c + d
  {
  }

  /** One round of Iterate: a tag, then one or two strings. */
  method ReadRecord(input: Bytes) returns (r: Option<Op>, rest: Bytes)
    requires input != []
    ensures OpAt(input) == if r.Some? then Some((r.value, rest)) else None
  {
    hide SliceAt;
    var tag, body := input[0], input[1..];
    r, rest := None, input;
    if tag == 1 {
      var key, rest1 := GetLengthPrefixedSlice(body);
      if key.None? { return None, input; }
      var value, rest2 := GetLengthPrefixedSlice(rest1);
      if value.None? { return None, input; }
      r, rest := Some(Op.Put(key.value, value.value)), rest2;
    } else if tag == 0 {
      var key, rest1 := GetLengthPrefixedSlice(body);
      if key.None? { return None, input; }
      r, rest := Some(Op.Delete(key.value)), rest1;
    }
  }
}
