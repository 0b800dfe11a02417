/** The write-ahead log (leveldb/db/log_writer.cc and log_reader.cc): records are cut into fragments that
    never cross a block, and a reader of any prefix of the file gets exactly the records that are
    completely in it. */
module Log {
  import opened Slices
  import opened Options
  import opened Coding

  const BLOCK := 32768
  const HEADER := 7

  const FULL: byte := 1
  const FIRST: byte := 2
  const MIDDLE: byte := 3
  const LAST: byte := 4
  const END_OF_FILE := 5
  const BAD_RECORD := 6

  // ---------------------------------------------------------------- the format

  /** The checksum of the type byte and the payload. */
  type Checksum = Bytes -> Word

  function Header(crc: Checksum, kind: byte, payload: Bytes): (r: Bytes)
    requires |payload| <= 0xFFFF
    ensures |r| == HEADER
  {
    EncodeFixed32(crc([kind] + payload)) + [|payload| % 256, |payload| / 256, kind]
  }

  /** The place in its block of a file position. */
  function InBlock(at: int): (r: nat)
    ensures r < BLOCK
  {
    at % BLOCK
  }

  /** Bytes that fill the block when no header fits any more. */
  function Padding(at: nat): nat {
    if BLOCK - InBlock(at) < HEADER then BLOCK - InBlock(at) else 0
  }

  /** How much of the data goes into the fragment that is written next. */
  function ChunkLength(at: nat, data: Bytes): (n: nat)
    ensures n <= |data| && InBlock(at + Padding(at)) + HEADER + n <= BLOCK
    ensures n < |data| ==> InBlock(at + Padding(at)) + HEADER + n == BLOCK
  {
    var avail := BLOCK - InBlock(at + Padding(at)) - HEADER;
    if |data| < avail then |data| else avail
  }

  function Kind(begin: bool, end: bool): byte {
    if begin && end then FULL else if begin then FIRST else if end then LAST else MIDDLE
  }

  function Zeros(n: nat): (r: Bytes)
    ensures |r| == n
  {
    seq(n, i => 0)
  }

  /** The next physical record: padding, header and payload. */
  function Piece(crc: Checksum, at: nat, data: Bytes, begin: bool): (r: Bytes)
    ensures |r| == Padding(at) + HEADER + ChunkLength(at, data)
  {
    var n := ChunkLength(at, data);
    Zeros(Padding(at)) + Header(crc, Kind(begin, n == |data|), data[..n]) + data[..n]
  }

  /** A logical record written at file position `at`. */
  function Encoded(crc: Checksum, at: nat, data: Bytes, begin: bool): Bytes
    decreases |data|, if ChunkLength(at, data) == 0 then 1 else 0
  {
    var n, piece := ChunkLength(at, data), Piece(crc, at, data, begin);
    if n == |data| then piece
    else
      assert ChunkLength(at, data) == 0 ==> ChunkLength(at + |piece|, data) > 0;
      piece + Encoded(crc, at + |piece|, data[n..], false)
  }

  function EncodedAll(crc: Checksum, at: nat, records: seq<Bytes>): Bytes
    decreases |records|
  {
    if records == [] then []
    else
      var first := Encoded(crc, at, records[0], true);
      first + EncodedAll(crc, at + |first|, records[1..])
  }

  lemma {:induction false} EncodedAppend(crc: Checksum, at: nat, records: seq<Bytes>, record: Bytes)
    ensures EncodedAll(crc, at, records + [record]) ==
            EncodedAll(crc, at, records) + Encoded(crc, at + |EncodedAll(crc, at, records)|, record, true)
    decreases |records|
  {
    hide Encoded;
    if records == [] {
      assert (records + [record])[1..] == [];
    } else {
      var first := Encoded(crc, at, records[0], true);
      assert (records + [record])[1..] == records[1..] + [record];
      EncodedAppend(crc, at + |first|, records[1..], record);
    }
  }

  // ---------------------------------------------------------------- the bytes, in numbers

  /** One fragment: four bytes of checksum, two of length, one of type, and the payload. */
  ghost predicate IsFragment(crc: Checksum, b: Bytes, kind: byte, payload: Bytes) {
    && |payload| <= 32761
    && b == EncodeFixed32(crc([kind] + payload)) + [|payload| % 256, |payload| / 256, kind] + payload
  }

  /** Zeros if less than 7 bytes are left in the block of 32768 bytes; then one fragment of type 1 if the
      record fits in the block, and otherwise a fragment of type 2 that fills the block, and the rest. */
  ghost predicate IsRecord(crc: Checksum, at: nat, data: Bytes, b: Bytes) {
    var pad := if at % 32768 > 32761 then 32768 - at % 32768 else 0;
    var room := if at % 32768 > 32761 then 32761 else 32761 - at % 32768;
    && |b| >= pad && (forall i :: 0 <= i < pad ==> b[i] == 0)
    && if |data| <= room then IsFragment(crc, b[pad..], 1, data)
       else
         && |b| >= pad + 7 + room && IsFragment(crc, b[pad..pad+7+room], 2, data[..room])
         && IsRest(crc, data[room..], b[pad+7+room..])
  }

  /** What does not fit in the first block: fragments of type 3 that fill a block each, and one of type 4. */
  ghost predicate IsRest(crc: Checksum, rest: Bytes, b: Bytes)
    requires rest != []
  {
    var full := (|rest| - 1) / 32761;
    && |b| >= 32768 * full
    && (forall j :: 0 <= j < full ==> IsMiddle(crc, rest, b, j))
    && IsFragment(crc, b[32768*full..], 4, rest[32761*full..])
  }

  ghost predicate IsMiddle(crc: Checksum, rest: Bytes, b: Bytes, j: nat)
    requires 32761 * (j + 1) <= |rest| && 32768 * (j + 1) <= |b|
  {
    IsFragment(crc, b[32768*j..32768*(j+1)], 3, rest[32761*j..32761*(j+1)])
  }

  /** The numbers behind the names. */
  lemma PieceInNumbers(crc: Checksum, at: nat, data: Bytes, begin: bool)
    ensures var pad := if at % 32768 > 32761 then 32768 - at % 32768 else 0;
      var room := if at % 32768 > 32761 then 32761 else 32761 - at % 32768;
      var n := if |data| <= room then |data| else room;
      var kind := if begin then if n == |data| then 1 else 2 else if n == |data| then 4 else 3;
      var piece := Piece(crc, at, data, begin);
      && ChunkLength(at, data) == n && |piece| == pad + 7 + n && (forall i :: 0 <= i < pad ==> piece[i] == 0)
      && IsFragment(crc, piece[pad..], kind, data[..n])
  {
    var n := ChunkLength(at, data);
    var h := Header(crc, Kind(begin, n == |data|), data[..n]);
    assert Piece(crc, at, data, begin) == Zeros(Padding(at)) + (h + data[..n]);
  }

  lemma {:induction false} EncodedIsRest(crc: Checksum, at: nat, rest: Bytes)
    requires rest != [] && at % 32768 == 0
    ensures IsRest(crc, rest, Encoded(crc, at, rest, false))
    decreases |rest|
  {
    EncodedSplit(crc, at, rest, false);
    PieceInNumbers(crc, at, rest, false);
    hide Encoded, Piece, IsFragment, IsMiddle, Padding, ChunkLength;
    var b, piece := Encoded(crc, at, rest, false), Piece(crc, at, rest, false);
    assert piece[0..] == piece;
    if |rest| > 32761 {
      EncodedIsRest(crc, at + 32768, rest[32761..]);
      FirstOfRest(crc, rest, piece, Encoded(crc, at + 32768, rest[32761..], false));
    } else {
      assert b == piece && b[0..] == b && rest[0..] == rest == rest[..|rest|];
    }
  }

  /** A full block in front of a rest. */
  lemma FirstOfRest(crc: Checksum, rest: Bytes, piece: Bytes, c: Bytes)
    requires |rest| > 32761 && |piece| == 32768 && IsFragment(crc, piece, 3, rest[..32761])
    requires IsRest(crc, rest[32761..], c)
    ensures IsRest(crc, rest, piece + c)
  {
    hide IsFragment, IsMiddle;
    var later, b := rest[32761..], piece + c;
    var full := (|rest| - 1) / 32761;
    assert (|later| - 1) / 32761 == full - 1;
    forall j | 0 <= j < full ensures IsMiddle(crc, rest, b, j) {
      if j == 0 {
        FirstMiddle(crc, rest, piece, c);
      } else {
        assert IsMiddle(crc, later, c, j - 1);
        NextMiddle(crc, rest, piece, c, j);
      }
    }
    LastBehind(rest, piece, c, full);
  }

  lemma FirstMiddle(crc: Checksum, rest: Bytes, piece: Bytes, c: Bytes)
    requires |rest| > 32761 && |piece| == 32768 && IsFragment(crc, piece, 3, rest[..32761])
    ensures IsMiddle(crc, rest, piece + c, 0)
  {
    hide IsFragment;
    assert (piece + c)[0..32768] == piece && rest[0..32761] == rest[..32761];
  }

  lemma NextMiddle(crc: Checksum, rest: Bytes, piece: Bytes, c: Bytes, j: nat)
    requires |piece| == 32768 && j >= 1 && 32761 * (j + 1) <= |rest| && 32768 * j <= |c|
    requires IsMiddle(crc, rest[32761..], c, j - 1)
    ensures IsMiddle(crc, rest, piece + c, j)
  {
    hide IsFragment;
    CutBehind(piece, c, 32768 * (j - 1), 32768 * j);
    CutBehind(rest[..32761], rest[32761..], 32761 * (j - 1), 32761 * j);
    assert rest == rest[..32761] + rest[32761..];
  }

  lemma LastBehind(rest: Bytes, piece: Bytes, c: Bytes, full: nat)
    requires |piece| == 32768 && full >= 1 && 32761 * full <= |rest| && 32768 * (full - 1) <= |c|
    ensures (piece + c)[32768*full..] == c[32768*(full-1)..]
    ensures rest[32761*full..] == rest[32761..][32761*(full-1)..]
  {
  }

  lemma CutBehind(a: Bytes, b: Bytes, lo: nat, hi: nat)
    requires lo <= hi <= |b|
    ensures (a + b)[|a|+lo..|a|+hi] == b[lo..hi]
  {
  }

  lemma EncodedIsRecord(crc: Checksum, at: nat, data: Bytes)
    ensures IsRecord(crc, at, data, Encoded(crc, at, data, true))
  {
    EncodedSplit(crc, at, data, true);
    PieceInNumbers(crc, at, data, true);
    hide Encoded, Piece, IsFragment, Padding, ChunkLength, IsRest;
    var b, piece := Encoded(crc, at, data, true), Piece(crc, at, data, true);
    var pad := if at % 32768 > 32761 then 32768 - at % 32768 else 0;
    var room := if at % 32768 > 32761 then 32761 else 32761 - at % 32768;
    if |data| <= room {
      assert b == piece && data[..|data|] == data;
    } else {
      EncodedIsRest(crc, at + |piece|, data[room..]);
      assert b[pad..pad+7+room] == piece[pad..];
      assert b[pad+7+room..] == Encoded(crc, at + |piece|, data[room..], false);
    }
  }

  /** The whole file after one record that fits in the first block. */
  lemma SmallRecord(crc: Checksum, data: Bytes, b: Bytes)
    requires |data| <= 32761
    ensures IsRecord(crc, 0, data, b) <==>
            b == EncodeFixed32(crc([1] + data)) + [|data| % 256, |data| / 256, 1] + data
  {
    assert b[0..] == b;
  }

  // ---------------------------------------------------------------- the writer

  class Writer {
    const crc: Checksum
    var dest: Bytes            // the file
    var blockOffset: nat
    ghost var records: seq<Bytes>

    ghost predicate Valid()
      reads this
    {
      && blockOffset <= BLOCK && InBlock(blockOffset) == InBlock(|dest|)
      && dest == EncodedAll(crc, 0, records)
    }

    constructor (crc: Checksum)
      ensures Valid() && this.crc == crc && dest == [] && records == []
    {
      this.crc := crc;
      dest, blockOffset, records := [], 0, [];
    }

    method AddRecord(data: Bytes)
      requires Valid()
      modifies this
      ensures Valid() && records == old(records) + [data]
      ensures old(dest) <= dest && IsRecord(crc, |old(dest)|, data, dest[|old(dest)|..])
      ensures old(dest) == [] && |data| <= 32761 ==>
                dest == EncodeFixed32(crc([1] + data)) + [|data| % 256, |data| / 256, 1] + data
    {
      hide Encoded, EncodedAll, IsRecord;
      EncodedAppend(crc, 0, records, data);
      EncodedIsRecord(crc, |dest|, data);
      if dest == [] && |data| <= 32761 { SmallRecord(crc, data, Encoded(crc, 0, data, true)); }
      records := records + [data];
      AddFragments(data);
    }

    /** The loop of AddRecord. */
    method AddFragments(data: Bytes)
      requires blockOffset <= BLOCK && InBlock(blockOffset) == InBlock(|dest|)
      modifies this`dest, this`blockOffset
      ensures blockOffset <= BLOCK && InBlock(blockOffset) == InBlock(|dest|)
      ensures dest == old(dest) + Encoded(crc, |old(dest)|, data, true)
    {
      hide Encoded, Piece, InBlock, Padding;
      ghost var goal := dest + Encoded(crc, |dest|, data, true);
      var left := data;
      var begin := true;
      var more := true;
      while more
        invariant blockOffset <= BLOCK && InBlock(blockOffset) == InBlock(|dest|)
        invariant dest + (if more then Encoded(crc, |dest|, left, begin) else []) == goal
        decreases more, |left|, if ChunkLength(|dest|, left) == 0 then 1 else 0
      {
        EncodedSplit(crc, |dest|, left, begin);
        ghost var at, first := |dest|, begin;
        var length := AddFragment(left, begin);
        left := left[length..];
        begin := false;
        more := |left| > 0;
        if more && length == 0 { NotEmptyTwice(crc, at, left, first); }
      }
    }

    /** One round: switch to a new block if no header fits, then write as much as fits. */
    method AddFragment(left: Bytes, begin: bool) returns (length: nat)
      requires blockOffset <= BLOCK && InBlock(blockOffset) == InBlock(|dest|)
      modifies this`dest, this`blockOffset
      ensures blockOffset <= BLOCK && InBlock(blockOffset) == InBlock(|dest|)
      ensures length == ChunkLength(|old(dest)|, left)
      ensures dest == old(dest) + Piece(crc, |old(dest)|, left, begin)
    {
      hide Encoded, Piece, Header, Kind, InBlock, Padding;
      ghost var before, at := dest, |dest|;
      LeftoverIsPadding(blockOffset, at);
      var leftover := BLOCK - blockOffset;
      if leftover < HEADER {
        dest := dest + Zeros(leftover);
        blockOffset := 0;
      }
      assert dest == before + Zeros(Padding(at));
      var avail := BLOCK - blockOffset - HEADER;
      length := if |left| < avail then |left| else avail;
      assert length == ChunkLength(at, left);
      var end := |left| == length;
      assert InBlock(0) == 0 by { InBlockZero(); }
      InBlockMoves(blockOffset, |dest|, HEADER + length);
      EmitPhysicalRecord(Kind(begin, end), left[..length]);
      PieceIs(crc, at, left, begin, before, dest);
    }

    method EmitPhysicalRecord(kind: byte, payload: Bytes)
      requires blockOffset + HEADER + |payload| <= BLOCK
      modifies this`dest, this`blockOffset
      ensures dest == old(dest) + Header(crc, kind, payload) + payload
      ensures blockOffset == old(blockOffset) + HEADER + |payload|
    {
      var buf := EncodeFixed32(crc([kind] + payload)) + [|payload| % 256, |payload| / 256, kind];
      dest := dest + buf + payload;
      blockOffset := blockOffset + HEADER + |payload|;
    }
  }

  /** An empty fragment is followed by a new block. */
  lemma NotEmptyTwice(crc: Checksum, at: nat, data: Bytes, begin: bool)
    requires data != [] && ChunkLength(at, data) == 0
    ensures ChunkLength(at + |Piece(crc, at, data, begin)|, data) > 0
  {
  }

  lemma LeftoverIsPadding(blockOffset: nat, at: nat)
    requires blockOffset <= BLOCK && InBlock(blockOffset) == InBlock(at)
    ensures var leftover := BLOCK - blockOffset;
      if leftover < HEADER then Padding(at) == leftover && InBlock(at + leftover) == 0
      else Padding(at) == 0 && InBlock(at) == blockOffset
  {
  }

  lemma InBlockZero()
    ensures InBlock(0) == 0
  {
  }

  /** Both sides of a position move on together. */
  lemma InBlockMoves(a: nat, b: nat, n: nat)
    requires InBlock(a) == InBlock(b)
    ensures InBlock(a + n) == InBlock(b + n)
  {
  }

  lemma PieceIs(crc: Checksum, at: nat, data: Bytes, begin: bool, before: Bytes, dest: Bytes)
    requires var n := ChunkLength(at, data);
      dest == before + Zeros(Padding(at)) + Header(crc, Kind(begin, n == |data|), data[..n]) + data[..n]
    ensures dest == before + Piece(crc, at, data, begin)
  {
  }

  lemma EncodedSplit(crc: Checksum, at: nat, data: Bytes, begin: bool)
    ensures var n, piece := ChunkLength(at, data), Piece(crc, at, data, begin);
      Encoded(crc, at, data, begin) ==
      piece + (if n == |data| then [] else Encoded(crc, at + |piece|, data[n..], false))
  {
  }

  // ---------------------------------------------------------------- what a file says

  /** What a buffer with a header in front says: the type (5 for the end of the file, 6 for a bad record), the
      payload, how much of the buffer it takes, and how often it complains. A bad record takes the rest of its block
      with it; one that reaches past the end of the file is an unfinished write and no damage. */
  datatype Parsed = Parsed(kind: int, payload: Bytes, used: nat, reports: nat)

  ghost function ParsedIn(crc: Checksum, checksum: bool, b: Bytes, atEnd: bool): (r: Parsed)
    requires |b| >= 7
    ensures 0 < r.used <= |b| && 0 <= r.kind < 256
  {
    var length := b[4] as int + 256 * b[5] as int;
    if 7 + length > |b| then if atEnd then Parsed(5, [], |b|, 0) else Parsed(6, [], |b|, 1)
    else if b[6] == 0 && length == 0 then Parsed(6, [], |b|, 0)
    else if checksum && DecodeFixed32(b[..4]) != crc(b[6..7+length]) then Parsed(6, [], |b|, 1)
    else Parsed(b[6] as int, b[7..7+length], 7 + length, 0)
  }

  /** The same for the bytes of any file behind a position, and where it goes on. Less than 7 bytes before the end of
      a block are skipped. */
  datatype Physical = Physical(kind: int, payload: Bytes, next: nat, reports: nat)

  ghost function PhysicalAt(crc: Checksum, checksum: bool, file: Bytes, at: nat): (r: Physical)
    requires at <= |file|
    ensures r.next <= |file| && 0 <= r.kind < 256 && (r.kind != 5 ==> r.next > at)
  {
    var p := if at % 32768 > 32761 then at - at % 32768 + 32768 else at;
    var blockEnd := p - p % 32768 + 32768;
    if p + 7 > |file| then Physical(5, [], |file|, 0)
    else
      var r := ParsedIn(crc, checksum, file[p..if blockEnd < |file| then blockEnd else |file|], blockEnd > |file|);
      Physical(r.kind, r.payload, p + r.used, r.reports)
  }

  datatype Scanned = Scanned(record: Option<Bytes>, next: nat, reports: nat)

  ghost function Complain(n: nat, s: Scanned): Scanned { Scanned(s.record, s.next, n + s.reports) }

  /** What ReadRecord returns. `scratch` is what it has of a record that has been begun. */
  ghost function Scan(crc: Checksum, checksum: bool, file: Bytes, at: nat, scratch: Option<Bytes>): (r: Scanned)
    requires at <= |file|
    ensures r.next <= |file| && (r.record.Some? ==> r.next > at)
    decreases |file| - at
  {
    var p := PhysicalAt(crc, checksum, file, at);
    var lost := if scratch.Some? then 1 else 0;
    Complain(p.reports,
      if p.kind == 5 then Scanned(None, p.next, 0)
      else if p.kind == 1 then Scanned(Some(p.payload), p.next, if scratch.Some? && scratch != Some([]) then 1 else 0)
      else if p.kind == 2 then
        Complain(if scratch.Some? && scratch != Some([]) then 1 else 0, Scan(crc, checksum, file, p.next, Some(p.payload)))
      else if p.kind == 3 then
        if scratch.None? then Complain(1, Scan(crc, checksum, file, p.next, None))
        else Scan(crc, checksum, file, p.next, Some(scratch.value + p.payload))
      else if p.kind == 4 then
        if scratch.None? then Complain(1, Scan(crc, checksum, file, p.next, None))
        else Scanned(Some(scratch.value + p.payload), p.next, 0)
      else if p.kind == 6 then Complain(lost, Scan(crc, checksum, file, p.next, None))
      else Complain(1, Scan(crc, checksum, file, p.next, None)))
  }

  // ---------------------------------------------------------------- what is read is there

  /** The payloads of the fragments at these positions. */
  ghost function Payloads(crc: Checksum, checksum: bool, file: Bytes, ps: seq<nat>): Bytes
    requires forall i :: 0 <= i < |ps| ==> ps[i] <= |file|
  {
    if ps == [] then []
    else
      var n := |ps| - 1;
      Payloads(crc, checksum, file, ps[..n]) + PhysicalAt(crc, checksum, file, ps[n]).payload
  }

  /** Fragments one behind the other from the first position up to `next`, of these types. */
  ghost predicate Chained(crc: Checksum, checksum: bool, file: Bytes, ps: seq<nat>, kinds: seq<int>, next: nat) {
    && |ps| == |kinds| > 0
    && (forall i :: 0 <= i < |ps| ==> ps[i] <= |file| && PhysicalAt(crc, checksum, file, ps[i]).kind == kinds[i])
    && (forall i :: 0 <= i < |ps| - 1 ==> PhysicalAt(crc, checksum, file, ps[i]).next == ps[i+1])
    && PhysicalAt(crc, checksum, file, ps[|ps|-1]).next == next
  }

  /** Type 2, then any number of type 3. */
  ghost predicate Begun(kinds: seq<int>) {
    kinds != [] && kinds[0] == 2 && forall i :: 1 <= i < |kinds| ==> kinds[i] == 3
  }

  ghost predicate Whole(kinds: seq<int>) {
    kinds == [1] || (|kinds| >= 2 && Begun(kinds[..|kinds|-1]) && kinds[|kinds|-1] == 4)
  }

  ghost predicate IsThere(crc: Checksum, checksum: bool, file: Bytes, from: nat, record: Bytes, next: nat) {
    exists ps: seq<nat>, kinds: seq<int> ::
      && Chained(crc, checksum, file, ps, kinds, next) && ps[0] >= from && Whole(kinds)
      && record == Payloads(crc, checksum, file, ps)
  }

  /** Whatever the damage: a record that is returned is the payload of fragments that lie one behind the other in
      the file, each with a right checksum, and that are of types 1 or 2, 3, .., 3, 4. */
  lemma {:induction false} ScanIsThere(crc: Checksum, checksum: bool, file: Bytes, from: nat, at: nat,
                                       scratch: Option<Bytes>, ps: seq<nat>, kinds: seq<int>)
    requires from <= at <= |file|
    requires scratch.Some? ==>
               && Chained(crc, checksum, file, ps, kinds, at) && ps[0] >= from && Begun(kinds)
               && scratch.value == Payloads(crc, checksum, file, ps)
    ensures var r := Scan(crc, checksum, file, at, scratch);
      r.record.Some? ==> IsThere(crc, checksum, file, from, r.record.value, r.next)
    decreases |file| - at
  {
    hide PhysicalAt, Scan, Chained, Payloads;
    var p := PhysicalAt(crc, checksum, file, at);
    ScanStep(crc, checksum, file, at, scratch);
    if p.kind == 1 || p.kind == 2 {
      OneFragment(crc, checksum, file, at);
      if p.kind == 2 { ScanIsThere(crc, checksum, file, from, p.next, Some(p.payload), [at], [2]); }
    } else if p.kind == 3 || p.kind == 4 {
      if scratch.Some? {
        MoreFragments(crc, checksum, file, ps, kinds, at);
        if p.kind == 3 {
          ScanIsThere(crc, checksum, file, from, p.next, Some(scratch.value + p.payload), ps + [at], kinds + [3]);
        } else {
          assert (kinds + [4])[..|kinds|] == kinds;
        }
      } else {
        ScanIsThere(crc, checksum, file, from, p.next, None, [], []);
      }
    } else if p.kind != 5 {
      ScanIsThere(crc, checksum, file, from, p.next, None, [], []);
    }
  }

  lemma OneFragment(crc: Checksum, checksum: bool, file: Bytes, at: nat)
    requires at <= |file|
    ensures var p := PhysicalAt(crc, checksum, file, at);
      Chained(crc, checksum, file, [at], [p.kind], p.next) && Payloads(crc, checksum, file, [at]) == p.payload
  {
    hide PhysicalAt;
    assert [at][..0] == [];
  }

  lemma MoreFragments(crc: Checksum, checksum: bool, file: Bytes, ps: seq<nat>, kinds: seq<int>, at: nat)
    requires at <= |file| && Chained(crc, checksum, file, ps, kinds, at)
    ensures var p := PhysicalAt(crc, checksum, file, at);
      && Chained(crc, checksum, file, ps + [at], kinds + [p.kind], p.next)
      && Payloads(crc, checksum, file, ps + [at]) == Payloads(crc, checksum, file, ps) + p.payload
  {
    hide PhysicalAt;
    assert (ps + [at])[..|ps|] == ps;
  }

  // ---------------------------------------------------------------- reading what the writer wrote

  /** Where the file holds a piece of a record, the piece is found, and a torn one is the end of the file. */
  lemma PieceIsRead(crc: Checksum, checksum: bool, file: Bytes, at: nat, data: Bytes, begin: bool, tail: Bytes)
    requires at <= |file| && file[at..] <= Encoded(crc, at, data, begin) + tail
    ensures var n, piece := ChunkLength(at, data), Piece(crc, at, data, begin);
      PhysicalAt(crc, checksum, file, at) ==
      if |file| - at >= |piece| then Physical(Kind(begin, n == |data|) as int, data[..n], at + |piece|, 0)
      else Physical(5, [], |file|, 0)
  {
    hide Encoded, Piece, Header, Kind, ParsedIn, ChunkLength;
    var n, p := ChunkLength(at, data), at + Padding(at);
    PieceSize(crc, at, data, begin);
    var blockEnd := p - p % 32768 + 32768;
    if p + 7 <= |file| {
      var buffer := file[p..if blockEnd < |file| then blockEnd else |file|];
      PieceInBuffer(crc, file, at, data, begin, tail, buffer, blockEnd > |file|);
      ParsedPiece(crc, checksum, Kind(begin, n == |data|), data[..n], buffer, blockEnd > |file|);
    }
  }

  lemma ParsedPiece(crc: Checksum, checksum: bool, kind: byte, payload: Bytes, b: Bytes, atEnd: bool)
    requires |b| >= 7 && kind > 0 && |payload| <= 0xFFFF
    requires var r := Header(crc, kind, payload) + payload; r <= b || (atEnd && b <= r && |b| < 7 + |payload|)
    ensures ParsedIn(crc, checksum, b, atEnd) ==
            if Header(crc, kind, payload) + payload <= b then Parsed(kind as int, payload, 7 + |payload|, 0)
            else Parsed(5, [], |b|, 0)
  {
    HeaderSize(crc, kind, payload);
    HeaderBytes(crc, kind, payload, b);
    hide Header, DecodeFixed32;
  }

  /** If the rest of the file is a prefix of what the writer wrote, so is the buffer, and a piece that is
      completely in the file is completely in the buffer. */
  lemma PieceInBuffer(crc: Checksum, file: Bytes, at: nat, data: Bytes, begin: bool, tail: Bytes, buffer: Bytes, eof: bool)
    requires at <= |file| && file[at..] <= Encoded(crc, at, data, begin) + tail
    requires ChunkLength(at, data) <= |data| && ChunkLength(at, data) <= 0xFFFF
    requires var start := at + Padding(at);
      && start + |buffer| <= |file| && buffer == file[start..start+|buffer|]
      && (if eof then start + |buffer| == |file| else InBlock(start) + |buffer| == BLOCK)
    ensures var n := ChunkLength(at, data);
      var r := Header(crc, Kind(begin, n == |data|), data[..n]) + data[..n];
      if |file| - at >= Padding(at) + HEADER + n then r <= buffer
      else eof && buffer <= r && |buffer| < HEADER + n
  {
    var n, start, piece := ChunkLength(at, data), at + Padding(at), Piece(crc, at, data, begin);
    var r := Header(crc, Kind(begin, n == |data|), data[..n]) + data[..n];
    EncodedSplit(crc, at, data, begin);
    hide Encoded, Header, Kind;
    var all := Encoded(crc, at, data, begin) + tail;
    assert piece <= all;
    assert piece[Padding(at)..] == r;
    forall i | 0 <= i < |r| && i < |buffer| ensures buffer[i] == r[i] {
      assert buffer[i] == file[start+i] == file[at..][Padding(at)+i] == all[Padding(at)+i] == piece[Padding(at)+i];
    }
  }

  /** The rest of a logical record is read as a whole, or the end of the file is reached, without a complaint. */
  lemma {:induction false} ScanRecord(crc: Checksum, checksum: bool, file: Bytes, at: nat, data: Bytes, begin: bool,
                                      tail: Bytes, scratch: Option<Bytes>)
    requires at <= |file| && file[at..] <= Encoded(crc, at, data, begin) + tail && (begin <==> scratch.None?)
    ensures var size := |Encoded(crc, at, data, begin)|;
      Scan(crc, checksum, file, at, scratch) ==
      if |file| - at >= size then Scanned(Some(if begin then data else scratch.value + data), at + size, 0)
      else Scanned(None, |file|, 0)
    decreases |data|, if ChunkLength(at, data) == 0 then 1 else 0
  {
    hide Encoded, Piece, Kind, PhysicalAt, ChunkLength, Scan;
    var n, piece := ChunkLength(at, data), Piece(crc, at, data, begin);
    PieceSize(crc, at, data, begin);
    PieceIsRead(crc, checksum, file, at, data, begin, tail);
    KindCases(begin, n == |data|);
    EncodedSplit(crc, at, data, begin);
    ScanStep(crc, checksum, file, at, scratch);
    if |file| - at < |piece| {
    } else if n == |data| {
      assert data[..n] == data;
    } else {
      if n == 0 { NotEmptyTwice(crc, at, data, begin); }
      AfterPiece(crc, file, at, data, begin, tail);
      var before := if begin then [] else scratch.value;
      ScanRecord(crc, checksum, file, at + |piece|, data[n..], false, tail, Some(before + data[..n]));
      Reassemble(before, data, n);
      assert begin ==> before + data[..n] == data[..n] && before + data == data;
    }
  }

  lemma Reassemble(before: Bytes, data: Bytes, n: nat)
    requires n <= |data|
    ensures before + data[..n] + data[n..] == before + data
  {
  }

  /** In an intact file ReadRecord finds the next record exactly if it is completely there. */
  lemma ScanIntact(crc: Checksum, checksum: bool, file: Bytes, at: nat, records: seq<Bytes>)
    requires at <= |file| && file[at..] <= EncodedAll(crc, at, records)
    ensures var r := Scan(crc, checksum, file, at, None);
      if records == [] || |file| - at < |Encoded(crc, at, records[0], true)| then r == Scanned(None, |file|, 0)
      else
        && r == Scanned(Some(records[0]), at + |Encoded(crc, at, records[0], true)|, 0)
        && file[r.next..] <= EncodedAll(crc, r.next, records[1..])
  {
    hide Encoded, Scan;
    if records == [] {
      AtTheEnd(crc, checksum, file, at);
    } else {
      var size := |Encoded(crc, at, records[0], true)|;
      var tail := EncodedAll(crc, at + size, records[1..]);
      ScanRecord(crc, checksum, file, at, records[0], true, tail, None);
      if |file| - at >= size {
        assert file[at+size..] == file[at..][size..];
        assert (Encoded(crc, at, records[0], true) + tail)[size..] == tail;
      }
    }
  }

  lemma AtTheEnd(crc: Checksum, checksum: bool, file: Bytes, at: nat)
    requires at == |file|
    ensures Scan(crc, checksum, file, at, None) == Scanned(None, |file|, 0)
  {
  }

  // ---------------------------------------------------------------- the reader

  class Reader {
    const crc: Checksum
    const checksum: bool          // verify checksums
    const file: Bytes             // the sequential file,
    var pos: nat                  // read up to here
    var buffer: Bytes
    var eof: bool
    var reports: nat              // calls of ReportCorruption

    /** Where the next physical record starts, before padding. */
    ghost function At(): int
      reads this`pos, this`buffer
    {
      pos - |buffer|
    }

    ghost predicate Valid()
      reads this`pos, this`buffer, this`eof
    {
      && |buffer| <= pos <= |file| && buffer == file[pos-|buffer|..pos]
      && (if eof then pos == |file| else InBlock(pos) == 0)
      && (buffer != [] ==> InBlock(At()) + |buffer| <= BLOCK - if eof then 1 else 0)
    }

    constructor (crc: Checksum, checksum: bool, file: Bytes)
      ensures Valid() && this.crc == crc && this.checksum == checksum && this.file == file && At() == 0 && reports == 0
    {
      this.crc, this.checksum, this.file := crc, checksum, file;
      pos, buffer, eof, reports := 0, [], false, 0;
    }

    /** Fill the buffer until it holds a header; false at the end of the file. Skips padding. */
    method FillBuffer() returns (ok: bool)
      requires Valid()
      modifies this`pos, this`buffer, this`eof
      ensures Valid()
      ensures var at := old(At());
        if |file| - at >= Padding(at) + HEADER then
          && ok && |buffer| >= HEADER && At() == at + Padding(at)
          && (eof || InBlock(At()) + |buffer| == BLOCK) && (eof ==> pos == |file|)
        else !ok && At() == |file|
    {
      hide Padding, InBlock;
      ghost var at := At();
      PaddingBelowHeader(at);
      if |buffer| >= HEADER {
        NoPadding(at, |buffer|);
        if !eof { UpToBlockEnd(at, |buffer|); }
      }
      while |buffer| < HEADER
        invariant Valid()
        invariant At() == at || (At() == at + Padding(at) && (eof || |buffer| == BLOCK))
        invariant |buffer| >= HEADER ==> At() == at + Padding(at)
        invariant |buffer| >= HEADER && !eof ==> InBlock(At()) + |buffer| == BLOCK
        decreases |file| - pos, !eof
      {
        if eof {
          // A truncated header: the writer died in the middle of writing it
          buffer := [];
          return false;
        }
        // The last read was a full read, so what is left is a trailer to skip
        if At() == at {
          TrailerIsPadding(at, |buffer|);
        }
        assert pos == at + Padding(at);
        var n := if |file| - pos < BLOCK then |file| - pos else BLOCK;
        NextBlock(pos);
        buffer := file[pos..pos+n];
        pos := pos + n;
        if n < BLOCK {
          eof := true;
        }
      }
      ok := true;
    }

    method ReadPhysicalRecord() returns (kind: int, fragment: Bytes)
      requires Valid()
      modifies this
      ensures Valid() && reports >= old(reports)
      ensures Physical(kind, fragment, At(), reports - old(reports)) == PhysicalAt(crc, checksum, file, old(At()))
    {
      hide ParsedIn, InBlock, Padding, Reader.Valid;
      ghost var at := At();
      StartsInFile();
      var ok := FillBuffer();
      if !ok {
        SkipsTo(at, |file|);
        return END_OF_FILE, [];
      }
      BufferIs();
      FilledTo(at, At(), |buffer|, eof, |file|);
      kind, fragment := ParseBuffer();
    }

    /** The part after the buffer is filled. */
    method ParseBuffer() returns (kind: int, fragment: Bytes)
      requires Valid() && |buffer| >= HEADER
      modifies this`buffer, this`reports
      ensures Valid() && reports >= old(reports) && |buffer| <= |old(buffer)|
      ensures Parsed(kind, fragment, |old(buffer)| - |buffer|, reports - old(reports)) ==
              ParsedIn(crc, checksum, old(buffer), eof)
    {
      hide DecodeFixed32;
      var header := buffer;
      var length := header[4] as int + header[5] as int * 0x100;
      kind := header[6] as int;
      if HEADER + length > |buffer| {
        Consume(|buffer|);
        if !eof {
          ReportCorruption();
          return BAD_RECORD, [];
        }
        // The writer died in the middle of writing the payload
        return END_OF_FILE, [];
      }
      if kind == 0 && length == 0 {
        // Preallocated space
        Consume(|buffer|);
        return BAD_RECORD, [];
      }
      if checksum {
        var expected := DecodeFixed32(header[..4]);
        var actual := crc(header[6..7+length]);
        if actual != expected {
          // The length itself may be corrupted: drop the rest of the buffer
          Consume(|buffer|);
          ReportCorruption();
          return BAD_RECORD, [];
        }
      }
      Consume(HEADER + length);
      fragment := header[HEADER..HEADER+length];
    }

    /** buffer_.remove_prefix, or clear. */
    method Consume(n: nat)
      requires Valid() && n <= |buffer|
      modifies this`buffer
      ensures Valid() && At() == old(At()) + n && buffer == old(buffer)[n..]
    {
      assert file[pos-|buffer|..pos][n..] == file[pos-|buffer|+n..pos];
      buffer := buffer[n..];
    }

    /** ReadRecord: false at the end of the file. */
    method ReadRecord() returns (ok: bool, record: Bytes)
      requires Valid()
      modifies this
      ensures Valid() && reports >= old(reports)
      ensures Scanned(if ok then Some(record) else None, At(), reports - old(reports)) ==
              Scan(crc, checksum, file, old(At()), None)
    {
      hide PhysicalAt, Scan, Reader.Valid;
      var scratch: Bytes := [];
      var inFragmentedRecord := false;
      ghost var start := At();
      StartsInFile();
      while true
        invariant Valid() && 0 <= At() <= |file| && reports >= old(reports)
        invariant Scan(crc, checksum, file, start, None) ==
                  Complain(reports - old(reports),
                           Scan(crc, checksum, file, At(), if inFragmentedRecord then Some(scratch) else None))
        decreases |file| - At()
      {
        ScanStep(crc, checksum, file, At(), if inFragmentedRecord then Some(scratch) else None);
        var kind, fragment := ReadPhysicalRecord();
        StartsInFile();
        if kind == FULL as int {
          if inFragmentedRecord {
            if scratch == [] {
              inFragmentedRecord := false;
            } else {
              ReportCorruption();
            }
          }
          return true, fragment;
        } else if kind == FIRST as int {
          if inFragmentedRecord {
            if scratch == [] {
              inFragmentedRecord := false;
            } else {
              ReportCorruption();
            }
          }
          scratch := fragment;
          inFragmentedRecord := true;
        } else if kind == MIDDLE as int {
          if !inFragmentedRecord {
            ReportCorruption();
          } else {
            scratch := scratch + fragment;
          }
        } else if kind == LAST as int {
          if !inFragmentedRecord {
            ReportCorruption();
          } else {
            return true, scratch + fragment;
          }
        } else if kind == END_OF_FILE {
          // A partial record at the end is not a corruption
          return false, [];
        } else if kind == BAD_RECORD {
          if inFragmentedRecord {
            ReportCorruption();
            inFragmentedRecord, scratch := false, [];
          }
        } else {
          ReportCorruption();
          inFragmentedRecord, scratch := false, [];
        }
      }
      ok, record := false, [];
    }

    lemma StartsInFile()
      requires Valid()
      ensures 0 <= At() <= |file|
    {
    }

    lemma BufferIs()
      requires Valid()
      ensures 0 <= At() && At() + |buffer| <= |file| && buffer == file[At()..At()+|buffer|]
      ensures buffer != [] ==> InBlock(At()) + |buffer| <= BLOCK - if eof then 1 else 0
    {
    }

    method ReportCorruption()
      modifies this`reports
      ensures reports == old(reports) + 1
    {
      reports := reports + 1;
    }
  }

  /** A buffer that holds a header reaches to the end of its block or of the file. */
  lemma FilledTo(at: nat, p: nat, size: nat, eof: bool, fileSize: nat)
    requires p == at + Padding(at) && InBlock(p) + size <= BLOCK && p + size <= fileSize
    requires if eof then p + size == fileSize && InBlock(p) + size < BLOCK else InBlock(p) + size == BLOCK
    ensures p == if at % 32768 > 32761 then at - at % 32768 + 32768 else at
    ensures var blockEnd := p - p % 32768 + 32768;
      p + size == (if blockEnd < fileSize then blockEnd else fileSize) && (eof <==> blockEnd > fileSize)
  {
  }

  lemma SkipsTo(at: nat, fileSize: nat)
    requires fileSize - at < Padding(at) + HEADER
    ensures (if at % 32768 > 32761 then at - at % 32768 + 32768 else at) + 7 > fileSize
  {
  }

  /** One round of ReadRecord. */
  lemma ScanStep(crc: Checksum, checksum: bool, file: Bytes, at: nat, scratch: Option<Bytes>)
    requires at <= |file|
    ensures var p := PhysicalAt(crc, checksum, file, at);
      var complaints := if scratch.Some? && scratch != Some([]) then 1 else 0;
      Scan(crc, checksum, file, at, scratch) ==
      Complain(p.reports,
        if p.kind == 5 then Scanned(None, p.next, 0)
        else if p.kind == 1 then Scanned(Some(p.payload), p.next, complaints)
        else if p.kind == 2 then Complain(complaints, Scan(crc, checksum, file, p.next, Some(p.payload)))
        else if p.kind == 3 && scratch.Some? then Scan(crc, checksum, file, p.next, Some(scratch.value + p.payload))
        else if p.kind == 4 && scratch.Some? then Scanned(Some(scratch.value + p.payload), p.next, 0)
        else if p.kind == 6 && scratch.None? then Scan(crc, checksum, file, p.next, None)
        else Complain(1, Scan(crc, checksum, file, p.next, None)))
  {
    hide PhysicalAt;
  }

  lemma UpToBlockEnd(at: nat, size: nat)
    requires InBlock(at) + size <= BLOCK && InBlock(at + size) == 0 && size > 0
    ensures InBlock(at) + size == BLOCK
  {
  }

  lemma NextBlock(pos: nat)
    requires InBlock(pos) == 0
    ensures InBlock(pos + BLOCK) == 0
  {
  }

  lemma PaddingBelowHeader(at: nat)
    ensures Padding(at) < HEADER
  {
  }

  lemma NoPadding(at: nat, size: nat)
    requires InBlock(at) + size <= BLOCK && size >= HEADER
    ensures Padding(at) == 0
  {
  }

  /** Less than a header before the end of a block is padding. */
  lemma TrailerIsPadding(at: nat, size: nat)
    requires InBlock(at + size) == 0 && size < HEADER
    ensures Padding(at) == size
  {
  }

  /** What parsing a header finds in a buffer that starts with (a part of) a physical record. */
  lemma HeaderBytes(crc: Checksum, kind: byte, payload: Bytes, b: Bytes)
    requires |payload| <= 0xFFFF && |b| >= HEADER
    ensures Header(crc, kind, payload) + payload <= b || b <= Header(crc, kind, payload) + payload ==>
              b[4] as int + b[5] as int * 0x100 == |payload| && b[6] == kind
    ensures Header(crc, kind, payload) + payload <= b ==>
              && b[HEADER..HEADER+|payload|] == payload
              && DecodeFixed32(b[..4]) == crc(b[6..7+|payload|])
  {
    var h := Header(crc, kind, payload);
    var r := h + payload;
    if r <= b || b <= r {
      assert forall i :: 0 <= i < HEADER ==> b[i] == h[i] == r[i];
    }
    if r <= b {
      assert b[..|r|] == r;
      assert b[HEADER..HEADER+|payload|] == r[HEADER..] == payload;
      assert b[6..7+|payload|] == r[6..] == [kind] + payload;
      assert b[..4] == h[..4] == EncodeFixed32(crc([kind] + payload));
      Fixed32RoundTrip(crc([kind] + payload));
    }
  }

  lemma HeaderSize(crc: Checksum, kind: byte, payload: Bytes)
    requires |payload| <= 0xFFFF
    ensures |Header(crc, kind, payload) + payload| == HEADER + |payload|
  {
  }

  lemma PieceSize(crc: Checksum, at: nat, data: Bytes, begin: bool)
    ensures |Piece(crc, at, data, begin)| == Padding(at) + HEADER + ChunkLength(at, data)
    ensures ChunkLength(at, data) <= |data| && ChunkLength(at, data) <= 0xFFFF
    ensures 1 <= Kind(begin, ChunkLength(at, data) == |data|) <= 4
  {
  }

  lemma KindCases(begin: bool, end: bool)
    ensures Kind(begin, end) == FULL <==> begin && end
    ensures Kind(begin, end) == FIRST <==> begin && !end
    ensures Kind(begin, end) == MIDDLE <==> !begin && !end
    ensures Kind(begin, end) == LAST <==> !begin && end
  {
  }

  /** What is left behind a piece. */
  lemma AfterPiece(crc: Checksum, file: Bytes, at: nat, data: Bytes, begin: bool, tail: Bytes)
    requires at <= |file| && file[at..] <= Encoded(crc, at, data, begin) + tail
    requires |file| - at >= |Piece(crc, at, data, begin)| && ChunkLength(at, data) <= |data|
    ensures var n, next := ChunkLength(at, data), at + |Piece(crc, at, data, begin)|;
      file[next..] <= (if n == |data| then [] else Encoded(crc, next, data[n..], false)) + tail
  {
    EncodedSplit(crc, at, data, begin);
    hide Encoded, Piece, ChunkLength;
    var piece := Piece(crc, at, data, begin);
    var all := Encoded(crc, at, data, begin) + tail;
    var n, next := ChunkLength(at, data), at + |piece|;
    var later := (if n == |data| then [] else Encoded(crc, next, data[n..], false)) + tail;
    assert all == piece + later;
    assert file[next..] == file[at..][|piece|..];
    assert file[at..] == all[..|file|-at];
    assert all[|piece|..] == later;
  }

  // ---------------------------------------------------------------- the round trip

  /** How many of the records end within the first `size` bytes of the file. */
  function Complete(crc: Checksum, at: nat, records: seq<Bytes>, size: nat): (n: nat)
    ensures n <= |records|
    decreases |records|
  {
    if records == [] then 0
    else
      var end := at + |Encoded(crc, at, records[0], true)|;
      if end > size then 0 else 1 + Complete(crc, end, records[1..], size)
  }

  /** The records that reading from a position to the end of the file returns, and how often it complains. */
  ghost function ReadFrom(crc: Checksum, checksum: bool, file: Bytes, at: nat): (seq<Bytes>, nat)
    requires at <= |file|
    decreases |file| - at
  {
    var r := Scan(crc, checksum, file, at, None);
    if r.record.None? then ([], r.reports)
    else
      var rest := ReadFrom(crc, checksum, file, r.next);
      ([r.record.value] + rest.0, r.reports + rest.1)
  }

  /** Of what the writer wrote, torn anywhere, exactly the records that are completely there, and no complaint. */
  lemma {:induction false} ReadFromPrefix(crc: Checksum, checksum: bool, file: Bytes, at: nat, records: seq<Bytes>)
    requires at <= |file| && file[at..] <= EncodedAll(crc, at, records)
    ensures ReadFrom(crc, checksum, file, at) == (records[..Complete(crc, at, records, |file|)], 0)
    decreases |records|
  {
    hide Encoded, Scan, EncodedAll;
    ScanIntact(crc, checksum, file, at, records);
    CompleteStep(crc, at, records, |file|);
    if records != [] {
      var next := at + |Encoded(crc, at, records[0], true)|;
      if next <= |file| {
        ReadFromPrefix(crc, checksum, file, next, records[1..]);
        var n := Complete(crc, next, records[1..], |file|);
        assert records[..n+1] == [records[0]] + records[1..][..n];
      }
    }
  }

  /** Reading a file to its end. Of any prefix of what the writer wrote, torn anywhere, it returns exactly the
      records that are completely there, and reports no corruption. */
  method ReadAll(crc: Checksum, checksum: bool, file: Bytes, ghost records: seq<Bytes>)
      returns (result: seq<Bytes>, reports: nat)
    ensures (result, reports) == ReadFrom(crc, checksum, file, 0)
    ensures file <= EncodedAll(crc, 0, records) ==>
              result == records[..Complete(crc, 0, records, |file|)] && reports == 0
  {
    hide EncodedAll, Complete, Scan, Reader.Valid;
    if file <= EncodedAll(crc, 0, records) {
      assert file[0..] == file;
      ReadFromPrefix(crc, checksum, file, 0, records);
    }
    hide ReadFrom;
    var reader := new Reader(crc, checksum, file);
    result := [];
    var more := true;
    assert [] + ReadFrom(crc, checksum, file, 0).0 == ReadFrom(crc, checksum, file, 0).0;
    while more
      invariant reader.Valid() && 0 <= reader.At() <= |file| && fresh(reader)
      invariant reader.crc == crc && reader.checksum == checksum && reader.file == file
      invariant more ==>
                  var rest := ReadFrom(crc, checksum, file, reader.At());
                  ReadFrom(crc, checksum, file, 0) == (result + rest.0, reader.reports + rest.1)
      invariant !more ==> (result, reader.reports) == ReadFrom(crc, checksum, file, 0)
      decreases more, |file| - reader.At()
      modifies reader
    {
      var record;
      ReadOn(crc, checksum, file, reader.At(), result, reader.reports);
      more, record := reader.ReadRecord();
      reader.StartsInFile();
      if more {
        result := result + [record];
      }
    }
    reports := reader.reports;
  }

  /** One round of ReadAll. */
  lemma ReadOn(crc: Checksum, checksum: bool, file: Bytes, at: nat, result: seq<Bytes>, reports: nat)
    requires at <= |file|
    ensures var r, all := Scan(crc, checksum, file, at, None), ReadFrom(crc, checksum, file, at);
      (result + all.0, reports + all.1) ==
      if r.record.None? then (result, reports + r.reports)
      else
        var rest := ReadFrom(crc, checksum, file, r.next);
        (result + [r.record.value] + rest.0, reports + r.reports + rest.1)
  {
    hide Scan;
    var r := Scan(crc, checksum, file, at, None);
    assert result + [] == result;
    if r.record.Some? {
      var rest := ReadFrom(crc, checksum, file, r.next).0;
      assert result + ([r.record.value] + rest) == result + [r.record.value] + rest;
    }
  }

  lemma CompleteStep(crc: Checksum, at: nat, records: seq<Bytes>, size: nat)
    ensures Complete(crc, at, records, size) ==
            if records == [] || size - at < |Encoded(crc, at, records[0], true)| then 0
            else 1 + Complete(crc, at + |Encoded(crc, at, records[0], true)|, records[1..], size)
  {
  }

  lemma {:induction false} WholeFileIsComplete(crc: Checksum, at: nat, records: seq<Bytes>)
    ensures Complete(crc, at, records, at + |EncodedAll(crc, at, records)|) == |records|
    decreases |records|
  {
    hide Encoded;
    if records != [] {
      WholeFileIsComplete(crc, at + |Encoded(crc, at, records[0], true)|, records[1..]);
    }
  }

  /** Write then read: the whole file gives back all records. */
  method RoundTrip(crc: Checksum, checksum: bool, records: seq<Bytes>) returns (result: seq<Bytes>, reports: nat)
    ensures result == records && reports == 0
  {
    hide EncodedAll, Encoded, IsRecord, Complete, ReadFrom;
    var writer := new Writer(crc);
    for i := 0 to |records|
      invariant writer.Valid() && writer.crc == crc && writer.records == records[..i] && fresh(writer)
      modifies writer
    {
      assert records[..i+1] == records[..i] + [records[i]];
      writer.AddRecord(records[i]);
    }
    assert records[..|records|] == records;
    WholeFileIsComplete(crc, 0, records);
    result, reports := ReadAll(crc, checksum, writer.dest, records);
  }
}
