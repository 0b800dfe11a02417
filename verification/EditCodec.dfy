/** The bytes of a version edit (VersionEdit::EncodeTo and DecodeFrom in leveldb/db/version_edit.cc). */
module EditCodec {
  import opened Slices
  import opened Options
  import opened Coding
  import opened Versions
  import opened Builder

  datatype FileRecord = FileRecord(level: nat, number: nat, size: nat, smallest: Bytes, largest: Bytes)
  datatype Pointer = Pointer(level: nat, key: Bytes)

  /** A version edit; None where the has_ flag is not set. Internal keys are in their encoded form. */
  datatype Edit = Edit(comparator: Option<Bytes>, logNumber: Option<nat>, prevLogNumber: Option<nat>,
                       nextFileNumber: Option<nat>, lastSequence: Option<nat>,
                       compactPointers: seq<Pointer>, deletedFiles: set<LevelNumber>, newFiles: seq<FileRecord>)

  const NO_EDIT := Edit(None, None, None, None, None, [], {}, [])

  /** What one tag of the encoding says. */
  datatype Field =
    | Comparator(name: Bytes)
    | LogNumber(n: nat)
    | PrevLogNumber(n: nat)
    | NextFileNumber(n: nat)
    | LastSequence(n: nat)
    | CompactPointer(pointer: Pointer)
    | DeletedFile(file: LevelNumber)
    | NewFile(record: FileRecord)

  function Tag(f: Field): nat {
    match f
    case Comparator(_) => 1
    case LogNumber(_) => 2
    case NextFileNumber(_) => 3
    case LastSequence(_) => 4
    case CompactPointer(_) => 5
    case DeletedFile(_) => 6
    case NewFile(_) => 7
    case PrevLogNumber(_) => 9
  }

  function Body(f: Field): Bytes {
    match f
    case Comparator(name) => LengthPrefixed(name)
    case LogNumber(n) => Varint(n)
    case PrevLogNumber(n) => Varint(n)
    case NextFileNumber(n) => Varint(n)
    case LastSequence(n) => Varint(n)
    case CompactPointer(p) => Varint(p.level) + LengthPrefixed(p.key)
    case DeletedFile(d) => Varint(d.level) + Varint(d.number)
    case NewFile(r) =>
      Varint(r.level) + (Varint(r.number) + (Varint(r.size) + (LengthPrefixed(r.smallest) + LengthPrefixed(r.largest))))
  }

  function FieldBytes(f: Field): Bytes { Varint(Tag(f)) + Body(f) }

  /** The numbers are 64-bit, the strings are below 4 GB, the levels exist. */
  predicate FieldOK(f: Field) {
    match f
    case Comparator(name) => |name| < WORD
    case LogNumber(n) => n < WORD64
    case PrevLogNumber(n) => n < WORD64
    case NextFileNumber(n) => n < WORD64
    case LastSequence(n) => n < WORD64
    case CompactPointer(p) => p.level < NUM_LEVELS && |p.key| < WORD
    case DeletedFile(d) => d.level < NUM_LEVELS && d.number < WORD64
    case NewFile(r) =>
      r.level < NUM_LEVELS && r.number < WORD64 && r.size < WORD64 && |r.smallest| < WORD && |r.largest| < WORD
  }

  function Apply(e: Edit, f: Field): Edit {
    match f
    case Comparator(name) => e.(comparator := Some(name))
    case LogNumber(n) => e.(logNumber := Some(n))
    case PrevLogNumber(n) => e.(prevLogNumber := Some(n))
    case NextFileNumber(n) => e.(nextFileNumber := Some(n))
    case LastSequence(n) => e.(lastSequence := Some(n))
    case CompactPointer(p) => e.(compactPointers := e.compactPointers + [p])
    case DeletedFile(d) => e.(deletedFiles := e.deletedFiles + {d})
    case NewFile(r) => e.(newFiles := e.newFiles + [r])
  }

  function Encoding(fields: seq<Field>): Bytes {
    if fields == [] then [] else FieldBytes(fields[0]) + Encoding(fields[1..])
  }

  function ApplyAll(e: Edit, fields: seq<Field>): Edit
    decreases |fields|
  {
    if fields == [] then e else ApplyAll(Apply(e, fields[0]), fields[1..])
  }

  lemma {:induction false} BytesAppend(fields: seq<Field>, f: Field)
    ensures Encoding(fields + [f]) == Encoding(fields) + FieldBytes(f)
  {
    if fields == [] {
      assert (fields + [f])[1..] == [];
    } else {
      assert (fields + [f])[1..] == fields[1..] + [f];
      BytesAppend(fields[1..], f);
    }
  }

  lemma {:induction false} ApplyAppend(e: Edit, fields: seq<Field>, f: Field)
    ensures ApplyAll(e, fields + [f]) == Apply(ApplyAll(e, fields), f)
    decreases |fields|
  {
    if fields == [] {
      assert (fields + [f])[1..] == [];
    } else {
      assert (fields + [f])[1..] == fields[1..] + [f];
      ApplyAppend(Apply(e, fields[0]), fields[1..], f);
    }
  }

  // ---------------------------------------------------------------- encoding

  ghost predicate EditOK(e: Edit) {
    && (e.comparator.Some? ==> |e.comparator.value| < WORD)
    && (e.logNumber.Some? ==> e.logNumber.value < WORD64) && (e.prevLogNumber.Some? ==> e.prevLogNumber.value < WORD64)
    && (e.nextFileNumber.Some? ==> e.nextFileNumber.value < WORD64) && (e.lastSequence.Some? ==> e.lastSequence.value < WORD64)
    && (forall i :: 0 <= i < |e.compactPointers| ==> FieldOK(CompactPointer(e.compactPointers[i])))
    && (forall d :: d in e.deletedFiles ==> FieldOK(DeletedFile(d)))
    && (forall i :: 0 <= i < |e.newFiles| ==> FieldOK(NewFile(e.newFiles[i])))
  }

  /** `dst` is the encoding of fields that add up to the edit. */
  ghost predicate Encodes(dst: Bytes, fields: seq<Field>, e: Edit) {
    dst == Encoding(fields) && ApplyAll(NO_EDIT, fields) == e && forall i :: 0 <= i < |fields| ==> FieldOK(fields[i])
  }

  lemma EncodeMore(dst: Bytes, fields: seq<Field>, e: Edit, f: Field)
    requires Encodes(dst, fields, e) && FieldOK(f)
    ensures Encodes(dst + FieldBytes(f), fields + [f], Apply(e, f))
  {
    BytesAppend(fields, f);
    ApplyAppend(NO_EDIT, fields, f);
  }

  /** What a field's bytes are, number by number. */
  lemma FieldIsLiteral(f: Field)
    ensures f.Comparator? ==> FieldBytes(f) == [1] + LengthPrefixed(f.name)
    ensures f.LogNumber? ==> FieldBytes(f) == [2] + Varint(f.n)
    ensures f.PrevLogNumber? ==> FieldBytes(f) == [9] + Varint(f.n)
    ensures f.NextFileNumber? ==> FieldBytes(f) == [3] + Varint(f.n)
    ensures f.LastSequence? ==> FieldBytes(f) == [4] + Varint(f.n)
    ensures f.CompactPointer? ==> FieldBytes(f) == [5] + Varint(f.pointer.level) + LengthPrefixed(f.pointer.key)
    ensures f.DeletedFile? ==> FieldBytes(f) == [6] + Varint(f.file.level) + Varint(f.file.number)
    ensures f.NewFile? ==>
              FieldBytes(f) == [7] + Varint(f.record.level) + Varint(f.record.number) + Varint(f.record.size) +
                               LengthPrefixed(f.record.smallest) + LengthPrefixed(f.record.largest)
  {
    assert Varint(Tag(f)) == [Tag(f)];
    hide Varint, LengthPrefixed;
    if f.CompactPointer? { JoinThree([5], Varint(f.pointer.level), LengthPrefixed(f.pointer.key)); }
    if f.DeletedFile? { JoinThree([6], Varint(f.file.level), Varint(f.file.number)); }
    if f.NewFile? {
      var r := f.record;
      JoinSix([7], Varint(r.level), Varint(r.number), Varint(r.size), LengthPrefixed(r.smallest), LengthPrefixed(r.largest));
    }
  }

  lemma JoinThree(a: Bytes, b: Bytes, c: Bytes)
    ensures a + (b + c) == a + b + c
  {
  }

  lemma JoinSix(a: Bytes, b: Bytes, c: Bytes, d: Bytes, e: Bytes, f: Bytes)
    ensures a + (b + (c + (d + (e + f)))) == a + b + c + d + e + f
  {
    JoinThree(a, b, c + (d + (e + f)));
    JoinThree(a + b, c, d + (e + f));
    JoinThree(a + b + c, d, e + f);
    JoinThree(a + b + c + d, e, f);
  }

  function Joined(parts: seq<Bytes>): Bytes {
    if parts == [] then [] else Joined(parts[..|parts|-1]) + parts[|parts|-1]
  }

  lemma JoinedMore(parts: seq<Bytes>, part: Bytes)
    ensures Joined(parts + [part]) == Joined(parts) + part
  {
    assert (parts + [part])[..|parts|] == parts;
  }

  /** The order of a std::set of pairs. */
  predicate Before(a: LevelNumber, b: LevelNumber) { a.level < b.level || (a.level == b.level && a.number < b.number) }

  ghost predicate InSetOrder(order: seq<LevelNumber>, files: set<LevelNumber>) {
    (forall i, j :: 0 <= i < j < |order| ==> Before(order[i], order[j])) && forall d :: d in order <==> d in files
  }

  method FirstDeleted(files: set<LevelNumber>) returns (d: LevelNumber)
    requires files != {}
    ensures d in files && forall m :: m in files ==> m == d || Before(d, m)
  {
    d :| d in files;
    var rest := files - {d};
    while rest != {}
      invariant rest <= files && d in files && forall m :: m in files - rest ==> m == d || Before(d, m)
    {
      var m :| m in rest;
      ghost var seen := files - rest;
      rest := rest - {m};
      if Before(m, d) {
        d := m;
      }
      assert forall x :: x in files - rest ==> x in seen || x == m;
    }
    assert files - rest == files;
  }

  /** EncodeTo. The bytes are those of fields that add up to the edit; tag by tag they are written out below. */
  method EncodeTo(e: Edit) returns (dst: Bytes, ghost fields: seq<Field>, ghost deleted: seq<LevelNumber>)
    requires EditOK(e)
    ensures Encodes(dst, fields, e)
    ensures exists fs :: Encodes(dst, fs, e)
    ensures InSetOrder(deleted, e.deletedFiles)
    ensures dst ==
            (if e.comparator.Some? then [1] + LengthPrefixed(e.comparator.value) else []) +
            (if e.logNumber.Some? then [2] + Varint(e.logNumber.value) else []) +
            (if e.prevLogNumber.Some? then [9] + Varint(e.prevLogNumber.value) else []) +
            (if e.nextFileNumber.Some? then [3] + Varint(e.nextFileNumber.value) else []) +
            (if e.lastSequence.Some? then [4] + Varint(e.lastSequence.value) else []) +
            Joined(seq(|e.compactPointers|, i requires 0 <= i < |e.compactPointers| =>
              [5] + Varint(e.compactPointers[i].level) + LengthPrefixed(e.compactPointers[i].key))) +
            Joined(seq(|deleted|, i requires 0 <= i < |deleted| =>
              [6] + Varint(deleted[i].level) + Varint(deleted[i].number))) +
            Joined(seq(|e.newFiles|, i requires 0 <= i < |e.newFiles| =>
              [7] + Varint(e.newFiles[i].level) + Varint(e.newFiles[i].number) + Varint(e.newFiles[i].size) +
              LengthPrefixed(e.newFiles[i].smallest) + LengthPrefixed(e.newFiles[i].largest)))
  {
    hide Encodes, FieldBytes, FieldOK, Varint, LengthPrefixed, Joined;
    dst, fields := EncodeNumbers(e);
    ghost var done := NO_EDIT.(comparator := e.comparator, logNumber := e.logNumber, prevLogNumber := e.prevLogNumber,
                               nextFileNumber := e.nextFileNumber, lastSequence := e.lastSequence);
    dst, fields := EncodePointers(e, dst, fields, done);
    dst, fields, deleted := EncodeDeleted(e, dst, fields, done.(compactPointers := e.compactPointers));
    dst, fields := EncodeNewFiles(e, dst, fields, e.(newFiles := []));
  }

  lemma JoinedNone()
    ensures Joined([]) == []
  {
  }

  /** The parts of EncodeTo. */
  method EncodePointers(e: Edit, start: Bytes, ghost fields0: seq<Field>, ghost done0: Edit)
      returns (dst: Bytes, ghost fields: seq<Field>)
    requires EditOK(e) && Encodes(start, fields0, done0) && done0.compactPointers == []
    ensures Encodes(dst, fields, done0.(compactPointers := e.compactPointers))
    ensures dst == start + Joined(seq(|e.compactPointers|, i requires 0 <= i < |e.compactPointers| =>
              [5] + Varint(e.compactPointers[i].level) + LengthPrefixed(e.compactPointers[i].key)))
  {
    hide Encodes, FieldBytes, FieldOK, Varint, LengthPrefixed, Joined;
    dst, fields := start, fields0;
    ghost var done := done0;
    ghost var parts := seq(|e.compactPointers|, i requires 0 <= i < |e.compactPointers| =>
              [5] + Varint(e.compactPointers[i].level) + LengthPrefixed(e.compactPointers[i].key));
    JoinedNone();
    for i := 0 to |e.compactPointers|
      invariant Encodes(dst, fields, done) && done == done0.(compactPointers := e.compactPointers[..i])
      invariant dst == start + Joined(parts[..i])
    {
      var f := CompactPointer(e.compactPointers[i]);
      EncodeMore(dst, fields, done, f);
      FieldIsLiteral(f);
      JoinedMore(parts[..i], parts[i]);
      assert parts[..i+1] == parts[..i] + [parts[i]];
      dst, fields, done := dst + FieldBytes(f), fields + [f], Apply(done, f);
      assert e.compactPointers[..i] + [e.compactPointers[i]] == e.compactPointers[..i+1];
    }
    assert parts[..|parts|] == parts;
    assert e.compactPointers[..|e.compactPointers|] == e.compactPointers;
  }

  function DeletedParts(deleted: seq<LevelNumber>): (r: seq<Bytes>)
    ensures r == seq(|deleted|, i requires 0 <= i < |deleted| => [6] + Varint(deleted[i].level) + Varint(deleted[i].number))
  {
    seq(|deleted|, i requires 0 <= i < |deleted| => [6] + Varint(deleted[i].level) + Varint(deleted[i].number))
  }

  method EncodeDeleted(e: Edit, start: Bytes, ghost fields0: seq<Field>, ghost done0: Edit)
      returns (dst: Bytes, ghost fields: seq<Field>, ghost deleted: seq<LevelNumber>)
    requires EditOK(e) && Encodes(start, fields0, done0) && done0.deletedFiles == {}
    ensures Encodes(dst, fields, done0.(deletedFiles := e.deletedFiles)) && InSetOrder(deleted, e.deletedFiles)
    ensures dst == start + Joined(DeletedParts(deleted))
  {
    hide Encodes, FieldBytes, FieldOK, Varint, LengthPrefixed, Joined, InSetOrder, DeletedParts;
    dst, fields, deleted := start, fields0, [];
    ghost var done := done0;
    JoinedNone();
    NothingDeleted(e.deletedFiles);
    var left := e.deletedFiles;
    while left != {}
      invariant left <= e.deletedFiles && InSetOrder(deleted, e.deletedFiles - left)
      invariant forall d, m :: d in deleted && m in left ==> Before(d, m)
      invariant Encodes(dst, fields, done) && done == done0.(deletedFiles := e.deletedFiles - left)
      invariant dst == start + Joined(DeletedParts(deleted))
    {
      var d := FirstDeleted(left);
      var f := DeletedFile(d);
      EncodeMore(dst, fields, done, f);
      FieldIsLiteral(f);
      OneMoreDeleted(deleted, e.deletedFiles, left, d);
      JoinedMore(DeletedParts(deleted), [6] + Varint(d.level) + Varint(d.number));
      dst, fields, done := dst + FieldBytes(f), fields + [f], Apply(done, f);
      assert e.deletedFiles - (left - {d}) == e.deletedFiles - left + {d};
      deleted, left := deleted + [d], left - {d};
    }
    assert e.deletedFiles - {} == e.deletedFiles;
  }

  lemma NothingDeleted(files: set<LevelNumber>)
    ensures InSetOrder([], files - files) && DeletedParts([]) == []
  {
  }

  lemma OneMoreDeleted(deleted: seq<LevelNumber>, files: set<LevelNumber>, left: set<LevelNumber>, d: LevelNumber)
    requires left <= files && InSetOrder(deleted, files - left) && d in left
    requires forall m :: m in left ==> m == d || Before(d, m)
    requires forall x, m :: x in deleted && m in left ==> Before(x, m)
    ensures InSetOrder(deleted + [d], files - (left - {d}))
    ensures forall x, m :: x in deleted + [d] && m in left - {d} ==> Before(x, m)
    ensures DeletedParts(deleted + [d]) == DeletedParts(deleted) + [[6] + Varint(d.level) + Varint(d.number)]
  {
    var r := deleted + [d];
    forall i, j | 0 <= i < j < |r| ensures Before(r[i], r[j]) { assert r[i] in deleted; }
    forall x ensures x in r <==> x in files - (left - {d}) {
    }
  }

  method EncodeNewFiles(e: Edit, start: Bytes, ghost fields0: seq<Field>, ghost done0: Edit)
      returns (dst: Bytes, ghost fields: seq<Field>)
    requires EditOK(e) && Encodes(start, fields0, done0) && done0.newFiles == []
    ensures Encodes(dst, fields, done0.(newFiles := e.newFiles))
    ensures dst == start + Joined(seq(|e.newFiles|, i requires 0 <= i < |e.newFiles| =>
              [7] + Varint(e.newFiles[i].level) + Varint(e.newFiles[i].number) + Varint(e.newFiles[i].size) +
              LengthPrefixed(e.newFiles[i].smallest) + LengthPrefixed(e.newFiles[i].largest)))
  {
    hide Encodes, FieldBytes, FieldOK, Varint, LengthPrefixed, Joined;
    dst, fields := start, fields0;
    ghost var done := done0;
    ghost var parts := seq(|e.newFiles|, i requires 0 <= i < |e.newFiles| =>
              [7] + Varint(e.newFiles[i].level) + Varint(e.newFiles[i].number) + Varint(e.newFiles[i].size) +
              LengthPrefixed(e.newFiles[i].smallest) + LengthPrefixed(e.newFiles[i].largest));
    JoinedNone();
    for i := 0 to |e.newFiles|
      invariant Encodes(dst, fields, done) && done == done0.(newFiles := e.newFiles[..i])
      invariant dst == start + Joined(parts[..i])
    {
      var f := NewFile(e.newFiles[i]);
      EncodeMore(dst, fields, done, f);
      FieldIsLiteral(f);
      JoinedMore(parts[..i], parts[i]);
      assert parts[..i+1] == parts[..i] + [parts[i]];
      dst, fields, done := dst + FieldBytes(f), fields + [f], Apply(done, f);
      assert e.newFiles[..i] + [e.newFiles[i]] == e.newFiles[..i+1];
    }
    assert parts[..|parts|] == parts;
    assert e.newFiles[..|e.newFiles|] == e.newFiles;
  }

  /** The first part of EncodeTo. */
  method EncodeNumbers(e: Edit) returns (dst: Bytes, ghost fields: seq<Field>)
    requires EditOK(e)
    ensures Encodes(dst, fields, NO_EDIT.(comparator := e.comparator, logNumber := e.logNumber,
              prevLogNumber := e.prevLogNumber, nextFileNumber := e.nextFileNumber, lastSequence := e.lastSequence))
    ensures dst ==
            (if e.comparator.Some? then [1] + LengthPrefixed(e.comparator.value) else []) +
            (if e.logNumber.Some? then [2] + Varint(e.logNumber.value) else []) +
            (if e.prevLogNumber.Some? then [9] + Varint(e.prevLogNumber.value) else []) +
            (if e.nextFileNumber.Some? then [3] + Varint(e.nextFileNumber.value) else []) +
            (if e.lastSequence.Some? then [4] + Varint(e.lastSequence.value) else [])
  {
    NothingEncoded();
    NumbersLiteral(e);
    NumbersApplied(e);
    hide Encodes, FieldBytes, Varint, LengthPrefixed, Apply, EditOK;
    hide FieldOK;
    ghost var done1 := NO_EDIT.(comparator := e.comparator);
    ghost var done2 := done1.(logNumber := e.logNumber);
    ghost var done3 := done2.(prevLogNumber := e.prevLogNumber);
    ghost var done4 := done3.(nextFileNumber := e.nextFileNumber);
    dst, fields := EncodeOption([], [], NO_EDIT, e.comparator.Some?, Comparator(Or(e.comparator, [])));
    dst, fields := EncodeOption(dst, fields, done1, e.logNumber.Some?, LogNumber(Or(e.logNumber, 0)));
    dst, fields := EncodeOption(dst, fields, done2, e.prevLogNumber.Some?, PrevLogNumber(Or(e.prevLogNumber, 0)));
    dst, fields := EncodeOption(dst, fields, done3, e.nextFileNumber.Some?, NextFileNumber(Or(e.nextFileNumber, 0)));
    dst, fields := EncodeOption(dst, fields, done4, e.lastSequence.Some?, LastSequence(Or(e.lastSequence, 0)));
    NothingBefore(if e.comparator.Some? then FieldBytes(Comparator(Or(e.comparator, []))) else []);
  }

  lemma NothingBefore(b: Bytes)
    ensures [] + b == b
  {
  }

  function Or<T>(o: Option<T>, default_: T): T { if o.Some? then o.value else default_ }

  /** What the number fields do to an edit that has none so far. */
  lemma NumbersApplied(e: Edit)
    requires EditOK(e)
    ensures var c, l, p, n, s := Comparator(Or(e.comparator, [])), LogNumber(Or(e.logNumber, 0)),
        PrevLogNumber(Or(e.prevLogNumber, 0)), NextFileNumber(Or(e.nextFileNumber, 0)), LastSequence(Or(e.lastSequence, 0));
      var done1 := NO_EDIT.(comparator := e.comparator);
      var done2 := done1.(logNumber := e.logNumber);
      var done3 := done2.(prevLogNumber := e.prevLogNumber);
      var done4 := done3.(nextFileNumber := e.nextFileNumber);
      && FieldOK(c) && FieldOK(l) && FieldOK(p) && FieldOK(n) && FieldOK(s)
      && done1 == (if e.comparator.Some? then Apply(NO_EDIT, c) else NO_EDIT)
      && done2 == (if e.logNumber.Some? then Apply(done1, l) else done1)
      && done3 == (if e.prevLogNumber.Some? then Apply(done2, p) else done2)
      && done4 == (if e.nextFileNumber.Some? then Apply(done3, n) else done3)
      && done4.(lastSequence := e.lastSequence) == if e.lastSequence.Some? then Apply(done4, s) else done4
  {
  }

  lemma NothingEncoded()
    ensures Encodes([], [], NO_EDIT)
  {
  }

  lemma NumbersLiteral(e: Edit)
    ensures (if e.comparator.Some? then FieldBytes(Comparator(Or(e.comparator, []))) else []) ==
            (if e.comparator.Some? then [1] + LengthPrefixed(e.comparator.value) else [])
    ensures (if e.logNumber.Some? then FieldBytes(LogNumber(Or(e.logNumber, 0))) else []) ==
            (if e.logNumber.Some? then [2] + Varint(e.logNumber.value) else [])
    ensures (if e.prevLogNumber.Some? then FieldBytes(PrevLogNumber(Or(e.prevLogNumber, 0))) else []) ==
            (if e.prevLogNumber.Some? then [9] + Varint(e.prevLogNumber.value) else [])
    ensures (if e.nextFileNumber.Some? then FieldBytes(NextFileNumber(Or(e.nextFileNumber, 0))) else []) ==
            (if e.nextFileNumber.Some? then [3] + Varint(e.nextFileNumber.value) else [])
    ensures (if e.lastSequence.Some? then FieldBytes(LastSequence(Or(e.lastSequence, 0))) else []) ==
            (if e.lastSequence.Some? then [4] + Varint(e.lastSequence.value) else [])
  {
    hide FieldBytes, Varint, LengthPrefixed;
    if e.comparator.Some? { FieldIsLiteral(Comparator(e.comparator.value)); }
    if e.logNumber.Some? { FieldIsLiteral(LogNumber(e.logNumber.value)); }
    if e.prevLogNumber.Some? { FieldIsLiteral(PrevLogNumber(e.prevLogNumber.value)); }
    if e.nextFileNumber.Some? { FieldIsLiteral(NextFileNumber(e.nextFileNumber.value)); }
    if e.lastSequence.Some? { FieldIsLiteral(LastSequence(e.lastSequence.value)); }
  }

  /** A field whose has_ flag may be unset. */
  method EncodeOption(dst0: Bytes, ghost fields0: seq<Field>, ghost done: Edit, has: bool, f: Field)
      returns (dst: Bytes, ghost fields: seq<Field>)
    requires Encodes(dst0, fields0, done) && FieldOK(f)
    ensures dst == dst0 + if has then FieldBytes(f) else []
    ensures Encodes(dst, fields, if has then Apply(done, f) else done)
  {
    hide Encodes, FieldBytes;
    dst, fields := dst0, fields0;
    if has {
      EncodeMore(dst, fields, done, f);
      dst, fields := dst + FieldBytes(f), fields + [f];
    } else {
      assert dst + [] == dst;
    }
  }

  // ---------------------------------------------------------------- decoding

  lemma VarintAtFront(v: nat, rest: Bytes, k: nat)
    requires k > 0 && v < Power(k)
    ensures DecodeVarint(Varint(v) + rest, k) == Some(Decoded(v, |Varint(v)|))
    ensures (Varint(v) + rest)[|Varint(v)|..] == rest
  {
    VarintRoundTrip(v, rest, k);
  }

  // What is in front of any bytes, and what is behind it; None for bytes that say nothing.

  ghost function NumberAt(b: Bytes): (r: Option<(nat, Bytes)>)
    ensures r.Some? ==> |r.value.1| < |b|
  {
    match DecodeVarint(b, 10)
    case None => None
    case Some(d) => Some((d.value % 0x1_0000_0000_0000_0000, b[d.length..]))
  }

  ghost function SmallAt(b: Bytes): (r: Option<(nat, Bytes)>)
    ensures r.Some? ==> |r.value.1| < |b|
  {
    match DecodeVarint(b, 5)
    case None => None
    case Some(d) => Some((d.value % 0x1_0000_0000, b[d.length..]))
  }

  ghost function LevelAt(b: Bytes): (r: Option<(nat, Bytes)>)
    ensures r.Some? ==> |r.value.1| < |b|
  {
    if SmallAt(b).Some? && SmallAt(b).value.0 < 7 then SmallAt(b) else None
  }

  ghost function PointerAt(b: Bytes): (r: Option<(Pointer, Bytes)>)
    ensures r.Some? ==> |r.value.1| < |b|
  {
    match LevelAt(b)
    case None => None
    case Some((level, b1)) =>
      match SliceAt(b1)
      case None => None
      case Some((key, b2)) => Some((Pointer(level, key), b2))
  }

  ghost function DeletedAt(b: Bytes): (r: Option<(LevelNumber, Bytes)>)
    ensures r.Some? ==> |r.value.1| < |b|
  {
    match LevelAt(b)
    case None => None
    case Some((level, b1)) =>
      match NumberAt(b1)
      case None => None
      case Some((number, b2)) => Some((LevelNumber(level, number), b2))
  }

  ghost function NewFileAt(b: Bytes): (r: Option<(FileRecord, Bytes)>)
    ensures r.Some? ==> |r.value.1| < |b|
  {
    match DeletedAt(b)     // a level and a number
    case None => None
    case Some((file, b2)) =>
      match NumberAt(b2)
      case None => None
      case Some((size, b3)) =>
        match SliceAt(b3)
        case None => None
        case Some((smallest, b4)) =>
          match SliceAt(b4)
          case None => None
          case Some((largest, b5)) => Some((FileRecord(file.level, file.number, size, smallest, largest), b5))
  }

  ghost function AsField<T>(r: Option<(T, Bytes)>, f: T -> Field): Option<(Field, Bytes)> {
    match r
    case None => None
    case Some((v, b)) => Some((f(v), b))
  }

  /** What belongs to a tag. Any other tag is unknown. */
  ghost function BodyAt(tag: nat, b: Bytes): (r: Option<(Field, Bytes)>)
    ensures r.Some? ==> |r.value.1| < |b|
  {
    if tag == 1 then AsField(SliceAt(b), v => Comparator(v))
    else if tag == 2 then AsField(NumberAt(b), v => LogNumber(v))
    else if tag == 3 then AsField(NumberAt(b), v => NextFileNumber(v))
    else if tag == 4 then AsField(NumberAt(b), v => LastSequence(v))
    else if tag == 5 then AsField(PointerAt(b), v => CompactPointer(v))
    else if tag == 6 then AsField(DeletedAt(b), v => DeletedFile(v))
    else if tag == 7 then AsField(NewFileAt(b), v => NewFile(v))
    else if tag == 9 then AsField(NumberAt(b), v => PrevLogNumber(v))
    else None
  }

  ghost function FieldAt(b: Bytes): (r: Option<(Field, Bytes)>)
    ensures r.Some? ==> |r.value.1| < |b|
  {
    if SmallAt(b).None? then None else BodyAt(SmallAt(b).value.0, SmallAt(b).value.1)
  }

  /** The fields of any bytes; None as soon as one of them cannot be read. */
  ghost function FieldsAt(b: Bytes): Option<seq<Field>>
    decreases |b|
  {
    if b == [] then Some([])
    else
      match FieldAt(b)
      case None => None
      case Some((f, rest)) =>
        match FieldsAt(rest)
        case None => None
        case Some(fields) => Some([f] + fields)
  }

  // ---------------------------------------------------------------- an encoding says what was encoded

  lemma NumberInFront(v: nat, tail: Bytes)
    ensures v < WORD64 ==> NumberAt(Varint(v) + tail) == Some((v, tail))
    ensures v < WORD ==> SmallAt(Varint(v) + tail) == Some((v, tail))
    ensures v < NUM_LEVELS ==> LevelAt(Varint(v) + tail) == Some((v, tail))
  {
    hide DecodeVarint, Varint, Power;
    NinthPower();
    FifthPower();
    if v < WORD64 { VarintAtFront(v, tail, 10); }
    if v < WORD { VarintAtFront(v, tail, 5); }
  }

  lemma FifthPower()
    ensures Power(5) > WORD
  {
  }

  lemma DeletedInFront(d: LevelNumber, tail: Bytes)
    requires FieldOK(DeletedFile(d))
    ensures DeletedAt(Varint(d.level) + (Varint(d.number) + tail)) == Some((d, tail))
  {
    hide Varint, LevelAt, NumberAt;
    NumberInFront(d.level, Varint(d.number) + tail);
    NumberInFront(d.number, tail);
  }

  lemma PointerInFront(p: Pointer, tail: Bytes)
    requires FieldOK(CompactPointer(p))
    ensures PointerAt(Varint(p.level) + (LengthPrefixed(p.key) + tail)) == Some((p, tail))
  {
    hide Varint, LengthPrefixed, LevelAt, SliceAt;
    NumberInFront(p.level, LengthPrefixed(p.key) + tail);
    SliceInFront(p.key, tail);
  }

  lemma NewFileInFront(n: FileRecord, tail: Bytes)
    requires FieldOK(NewFile(n))
    ensures NewFileAt(Varint(n.level) + (Varint(n.number) + (Varint(n.size) +
                      (LengthPrefixed(n.smallest) + (LengthPrefixed(n.largest) + tail))))) == Some((n, tail))
  {
    hide Varint, LengthPrefixed, DeletedAt, NumberAt, SliceAt;
    var t4 := LengthPrefixed(n.largest) + tail;
    var t3 := LengthPrefixed(n.smallest) + t4;
    DeletedInFront(LevelNumber(n.level, n.number), Varint(n.size) + t3);
    NumberInFront(n.size, t3);
    SliceInFront(n.smallest, t4);
    SliceInFront(n.largest, tail);
  }

  lemma BodyInFront(f: Field, tail: Bytes)
    requires FieldOK(f)
    ensures BodyAt(Tag(f), Body(f) + tail) == Some((f, tail))
  {
    hide Varint, LengthPrefixed, SliceAt, NumberAt, PointerAt, DeletedAt, NewFileAt;
    match f
    case Comparator(name) => SliceInFront(name, tail);
    case LogNumber(n) => NumberInFront(n, tail);
    case PrevLogNumber(n) => NumberInFront(n, tail);
    case NextFileNumber(n) => NumberInFront(n, tail);
    case LastSequence(n) => NumberInFront(n, tail);
    case CompactPointer(p) =>
      PointerInFront(p, tail);
      assert Body(f) + tail == Varint(p.level) + (LengthPrefixed(p.key) + tail);
    case DeletedFile(d) =>
      DeletedInFront(d, tail);
      assert Body(f) + tail == Varint(d.level) + (Varint(d.number) + tail);
    case NewFile(n) =>
      NewFileInFront(n, tail);
      assert Body(f) + tail == Varint(n.level) + (Varint(n.number) + (Varint(n.size) +
                               (LengthPrefixed(n.smallest) + (LengthPrefixed(n.largest) + tail))));
  }

  lemma FieldInFront(f: Field, tail: Bytes)
    requires FieldOK(f)
    ensures FieldAt(FieldBytes(f) + tail) == Some((f, tail))
  {
    hide Varint, BodyAt, SmallAt, LevelAt, NumberAt, Tag, Body, FieldOK, FieldBytes;
    TagInFront(f, tail);
    NumberInFront(Tag(f), Body(f) + tail);
    BodyInFront(f, tail);
  }

  lemma TagInFront(f: Field, tail: Bytes)
    ensures Tag(f) < WORD && FieldBytes(f) + tail == Varint(Tag(f)) + (Body(f) + tail)
  {
    hide Varint, Body;
  }

  lemma {:induction false} FieldsOfEncoding(fields: seq<Field>)
    requires forall i :: 0 <= i < |fields| ==> FieldOK(fields[i])
    ensures FieldsAt(Encoding(fields)) == Some(fields)
  {
    hide FieldOK, FieldBytes, FieldAt;
    if fields != [] {
      FieldInFront(fields[0], Encoding(fields[1..]));
      FieldsOfEncoding(fields[1..]);
      assert fields == [fields[0]] + fields[1..];
    }
  }

  // ---------------------------------------------------------------- DecodeFrom

  method ReadNumber(input: Bytes) returns (r: Option<nat>, rest: Bytes)
    ensures |rest| <= |input| && NumberAt(input) == if r.Some? then Some((r.value, rest)) else None
  {
    hide DecodeVarint;
    var d := GetVarint64(input);
    if d.None? {
      return None, input;
    }
    r, rest := Some(d.value.value), input[d.value.length..];
  }

  method ReadSmall(input: Bytes) returns (r: Option<nat>, rest: Bytes)
    ensures |rest| <= |input| && SmallAt(input) == if r.Some? then Some((r.value, rest)) else None
    ensures r.None? ==> rest == input
  {
    hide DecodeVarint;
    var d := GetVarint32(input);
    if d.None? {
      return None, input;
    }
    r, rest := Some(d.value.value), input[d.value.length..];
  }

  method ReadLevel(input: Bytes) returns (r: Option<nat>, rest: Bytes)
    ensures |rest| <= |input| && LevelAt(input) == if r.Some? then Some((r.value, rest)) else None
  {
    hide SmallAt;
    r, rest := ReadSmall(input);
    if r.Some? && r.value >= NUM_LEVELS {
      r := None;
    }
  }

  datatype FieldResult = Good(field: Field) | NoTag | Bad

  /** One round of DecodeFrom: a tag and what belongs to it. */
  method DecodeField(src: Bytes) returns (r: FieldResult, rest: Bytes)
    ensures FieldAt(src) == if r.Good? then Some((r.field, rest)) else None
    ensures r.NoTag? ==> rest == src
    ensures src == [] ==> r.NoTag?
  {
    NoTagInNothing();
    hide BodyAt, SmallAt;
    var tag, input := ReadSmall(src);
    if tag.None? {
      return NoTag, src;
    }
    r, rest := DecodeBody(tag.value, input);
  }

  lemma NoTagInNothing()
    ensures SmallAt([]) == None
  {
  }

  method DecodeBody(tag: nat, input: Bytes) returns (r: FieldResult, rest: Bytes)
    ensures !r.NoTag? && BodyAt(tag, input) == if r.Good? then Some((r.field, rest)) else None
  {
    hide SliceAt, NumberAt, PointerAt, DeletedAt, NewFileAt;
    r, rest := Bad, input;
    match tag
    case 1 =>
      var v;
      v, rest := GetLengthPrefixedSlice(input);
      if v.Some? { r := Good(Comparator(v.value)); }
    case 2 =>
      var v;
      v, rest := ReadNumber(input);
      if v.Some? { r := Good(LogNumber(v.value)); }
    case 9 =>
      var v;
      v, rest := ReadNumber(input);
      if v.Some? { r := Good(PrevLogNumber(v.value)); }
    case 3 =>
      var v;
      v, rest := ReadNumber(input);
      if v.Some? { r := Good(NextFileNumber(v.value)); }
    case 4 =>
      var v;
      v, rest := ReadNumber(input);
      if v.Some? { r := Good(LastSequence(v.value)); }
    case 5 =>
      var p;
      p, rest := DecodePointer(input);
      if p.Some? { r := Good(CompactPointer(p.value)); }
    case 6 =>
      var d;
      d, rest := DecodeDeleted(input);
      if d.Some? { r := Good(DeletedFile(d.value)); }
    case 7 =>
      var n;
      n, rest := DecodeNewFile(input);
      if n.Some? { r := Good(NewFile(n.value)); }
    case _ =>
  }

  method DecodePointer(input: Bytes) returns (r: Option<Pointer>, rest: Bytes)
    ensures PointerAt(input) == if r.Some? then Some((r.value, rest)) else None
  {
    hide LevelAt, SliceAt;
    var level, input1 := ReadLevel(input);
    if level.None? { return None, input; }
    var key, input2 := GetLengthPrefixedSlice(input1);
    if key.None? { return None, input; }
    r, rest := Some(Pointer(level.value, key.value)), input2;
  }

  method DecodeDeleted(input: Bytes) returns (r: Option<LevelNumber>, rest: Bytes)
    ensures DeletedAt(input) == if r.Some? then Some((r.value, rest)) else None
  {
    hide LevelAt, NumberAt;
    var level, input1 := ReadLevel(input);
    if level.None? { return None, input; }
    var number, input2 := ReadNumber(input1);
    if number.None? { return None, input; }
    r, rest := Some(LevelNumber(level.value, number.value)), input2;
  }

  method DecodeNewFile(input: Bytes) returns (r: Option<FileRecord>, rest: Bytes)
    ensures NewFileAt(input) == if r.Some? then Some((r.value, rest)) else None
  {
    hide LevelAt, NumberAt, SliceAt;
    var level, input1 := ReadLevel(input);
    if level.None? { return None, input; }
    var number, input2 := ReadNumber(input1);
    if number.None? { return None, input; }
    var size, input3 := ReadNumber(input2);
    if size.None? { return None, input; }
    var smallest, input4 := GetLengthPrefixedSlice(input3);
    if smallest.None? { return None, input; }
    var largest, input5 := GetLengthPrefixedSlice(input4);
    if largest.None? { return None, input; }
    r, rest := Some(FileRecord(level.value, number.value, size.value, smallest.value, largest.value)), input5;
  }

  ghost function Behind(done: seq<Field>, more: Option<seq<Field>>): Option<seq<Field>> {
    match more
    case None => None
    case Some(fields) => Some(done + fields)
  }

  /** One round of DecodeFrom. */
  lemma FieldsStep(done: seq<Field>, input: Bytes)
    ensures Behind([], FieldsAt(input)) == FieldsAt(input)
    ensures input == [] ==> Behind(done, FieldsAt(input)) == Some(done)
    ensures input != [] && FieldAt(input).None? ==> FieldsAt(input).None?
    ensures input != [] && FieldAt(input).Some? ==>
              var (f, rest) := FieldAt(input).value;
              Behind(done, FieldsAt(input)) == Behind(done + [f], FieldsAt(rest))
  {
    hide FieldAt;
    if FieldsAt(input).Some? { assert [] + FieldsAt(input).value == FieldsAt(input).value; }
    assert done + [] == done;
    if input != [] && FieldAt(input).Some? {
      var (f, rest) := FieldAt(input).value;
      if FieldsAt(rest).Some? {
        var more := FieldsAt(rest).value;
        assert done + ([f] + more) == done + [f] + more;
      }
    }
  }

  /** DecodeFrom into a fresh edit: the fields in their order; None for bytes that are not made of fields. */
  method DecodeFrom(src: Bytes) returns (r: Option<Edit>)
    ensures r == match FieldsAt(src)
                 case None => None
                 case Some(fields) => Some(ApplyAll(NO_EDIT, fields))
  {
    hide FieldAt, FieldsAt, Apply;
    var edit, input := NO_EDIT, src;
    ghost var done: seq<Field> := [];
    FieldsStep([], src);
    while true
      invariant ApplyAll(NO_EDIT, done) == edit && FieldsAt(src) == Behind(done, FieldsAt(input))
      decreases |input|
    {
      FieldsStep(done, input);
      var next, rest := DecodeField(input);
      match next
      case NoTag =>
        if input != [] {
          return None;
        }
        return Some(edit);
      case Bad =>
        return None;
      case Good(f) =>
        ApplyAppend(NO_EDIT, done, f);
        edit, input, done := Apply(edit, f), rest, done + [f];
    }
  }

  /** DecodeFrom inverts EncodeTo. */
  method RoundTrip(e: Edit) returns (r: Option<Edit>)
    requires EditOK(e)
    ensures r == Some(e)
  {
    var dst, fields, _ := EncodeTo(e);
    FieldsOfEncoding(fields);
    r := DecodeFrom(dst);
  }

  /** Reading the bytes of a single field, written out, into a fresh edit. `f` names the case. */
  method DecodeLiteral(src: Bytes, ghost f: Field) returns (r: Option<Edit>)
    requires FieldOK(f)
    ensures f.Comparator? && src == [1] + LengthPrefixed(f.name) ==> r == Some(NO_EDIT.(comparator := Some(f.name)))
    ensures f.LogNumber? && src == [2] + Varint(f.n) ==> r == Some(NO_EDIT.(logNumber := Some(f.n)))
    ensures f.PrevLogNumber? && src == [9] + Varint(f.n) ==> r == Some(NO_EDIT.(prevLogNumber := Some(f.n)))
    ensures f.NextFileNumber? && src == [3] + Varint(f.n) ==> r == Some(NO_EDIT.(nextFileNumber := Some(f.n)))
    ensures f.LastSequence? && src == [4] + Varint(f.n) ==> r == Some(NO_EDIT.(lastSequence := Some(f.n)))
    ensures f.CompactPointer? && src == [5] + Varint(f.pointer.level) + LengthPrefixed(f.pointer.key) ==>
              r == Some(NO_EDIT.(compactPointers := [f.pointer]))
    ensures f.DeletedFile? && src == [6] + Varint(f.file.level) + Varint(f.file.number) ==>
              r == Some(NO_EDIT.(deletedFiles := {f.file}))
    ensures f.NewFile? && src == [7] + Varint(f.record.level) + Varint(f.record.number) + Varint(f.record.size) +
                                 LengthPrefixed(f.record.smallest) + LengthPrefixed(f.record.largest) ==>
              r == Some(NO_EDIT.(newFiles := [f.record]))
  {
    FieldIsLiteral(f);
    OneField(f);
    hide FieldBytes, FieldOK, Varint, LengthPrefixed, Encoding, ApplyAll;
    FieldsOfEncoding([f]);
    r := DecodeFrom(src);
  }

  lemma OneField(f: Field)
    ensures Encoding([f]) == FieldBytes(f) && ApplyAll(NO_EDIT, [f]) == Apply(NO_EDIT, f)
    ensures f.CompactPointer? ==> Apply(NO_EDIT, f) == NO_EDIT.(compactPointers := [f.pointer])
    ensures f.DeletedFile? ==> Apply(NO_EDIT, f) == NO_EDIT.(deletedFiles := {f.file})
    ensures f.NewFile? ==> Apply(NO_EDIT, f) == NO_EDIT.(newFiles := [f.record])
  {
    assert [f][1..] == [];
  }
}
