/** The MANIFEST from its bytes (VersionSet::Recover in leveldb/db/version_set.cc): the log's records, each an
    encoded edit, replayed through one builder. A torn tail loses the last records and nothing else. */
module Manifest {
  import opened Slices
  import opened Options
  import opened Runs
  import opened Versions
  import opened Builder
  import opened VersionSets
  import opened EditCodec
  import Log

  /** How internal keys are written, and what the table files hold. */
  datatype Disk = Disk(keyBytes: InternalKey -> Bytes, keyOf: Bytes -> InternalKey, tables: nat -> Run)

  /** One record of the MANIFEST: a version edit and the numbers that go with it. */
  datatype ManifestRecord = ManifestRecord(edit: VersionEdit, nextFile: Option<nat>, lastSequence: Option<nat>,
                                           comparator: Option<Bytes>, prevLog: Option<nat>, pointers: seq<Pointer>)

  /** The key bounds read back, and the table file is there. */
  ghost predicate OnDisk(disk: Disk, f: File) {
    && disk.keyOf(disk.keyBytes(f.smallest)) == f.smallest && disk.keyOf(disk.keyBytes(f.largest)) == f.largest
    && disk.tables(f.number) == f.entries
  }

  function RecordOf(disk: Disk, n: LevelFile): FileRecord {
    FileRecord(n.level, n.file.number, n.file.size, disk.keyBytes(n.file.smallest), disk.keyBytes(n.file.largest))
  }

  function FileOf(disk: Disk, r: FileRecord): LevelFile {
    LevelFile(r.level, File(r.number, r.size, disk.keyOf(r.smallest), disk.keyOf(r.largest), disk.tables(r.number)))
  }

  function ToEdit(disk: Disk, m: ManifestRecord): (e: Edit)
    ensures e.logNumber == m.edit.logNumber && e.nextFileNumber == m.nextFile && e.lastSequence == m.lastSequence
    ensures e.comparator == m.comparator && e.prevLogNumber == m.prevLog && e.compactPointers == m.pointers
    ensures e.deletedFiles == m.edit.deletedFiles && |e.newFiles| == |m.edit.newFiles|
    ensures forall i :: 0 <= i < |e.newFiles| ==>
              var n, r := m.edit.newFiles[i], e.newFiles[i];
              && r.level == n.level && r.number == n.file.number && r.size == n.file.size
              && r.smallest == disk.keyBytes(n.file.smallest) && r.largest == disk.keyBytes(n.file.largest)
  {
    Edit(m.comparator, m.edit.logNumber, m.prevLog, m.nextFile, m.lastSequence, m.pointers, m.edit.deletedFiles,
         seq(|m.edit.newFiles|, i requires 0 <= i < |m.edit.newFiles| => RecordOf(disk, m.edit.newFiles[i])))
  }

  function FromEdit(disk: Disk, e: Edit): ManifestRecord {
    ManifestRecord(VersionEdit(e.logNumber, e.deletedFiles,
                               seq(|e.newFiles|, i requires 0 <= i < |e.newFiles| => FileOf(disk, e.newFiles[i]))),
                   e.nextFileNumber, e.lastSequence, e.comparator, e.prevLogNumber, e.compactPointers)
  }

  lemma FromTo(disk: Disk, m: ManifestRecord)
    requires forall i :: 0 <= i < |m.edit.newFiles| ==> OnDisk(disk, m.edit.newFiles[i].file)
    ensures FromEdit(disk, ToEdit(disk, m)) == m
  {
    var files := FromEdit(disk, ToEdit(disk, m)).edit.newFiles;
    forall i | 0 <= i < |files| ensures files[i] == m.edit.newFiles[i] {
      assert OnDisk(disk, m.edit.newFiles[i].file);
    }
    assert files == m.edit.newFiles;
  }

  function Edits(log: seq<ManifestRecord>): (r: seq<VersionEdit>)
    ensures |r| == |log|
  {
    seq(|log|, i requires 0 <= i < |log| => log[i].edit)
  }

  // ---------------------------------------------------------------- the numbers

  /** The last one recorded. */
  function LastOf(values: seq<Option<nat>>): Option<nat> {
    if values == [] then None
    else if values[|values|-1].Some? then values[|values|-1]
    else LastOf(values[..|values|-1])
  }

  function NextFiles(log: seq<ManifestRecord>): seq<Option<nat>> {
    seq(|log|, i requires 0 <= i < |log| => log[i].nextFile)
  }

  function LastSequences(log: seq<ManifestRecord>): seq<Option<nat>> {
    seq(|log|, i requires 0 <= i < |log| => log[i].lastSequence)
  }

  function LogNumbers(log: seq<ManifestRecord>): seq<Option<nat>> {
    seq(|log|, i requires 0 <= i < |log| => log[i].edit.logNumber)
  }

  lemma LastOfMore(values: seq<Option<nat>>, v: Option<nat>)
    ensures LastOf(values + [v]) == if v.Some? then v else LastOf(values)
  {
    assert (values + [v])[..|values|] == values;
  }

  lemma {:induction false} LogNumberIs(log: seq<ManifestRecord>)
    ensures LastOf(LogNumbers(log)).Some? ==> LastLogNumber(Edits(log)) == LastOf(LogNumbers(log)).value
  {
    if log != [] {
      var n := |log| - 1;
      LogNumberIs(log[..n]);
      assert LogNumbers(log)[..n] == LogNumbers(log[..n]) && Edits(log)[..n] == Edits(log[..n]);
    }
  }

  // ---------------------------------------------------------------- writing and reading

  /** The bytes say these records. */
  ghost predicate Written(disk: Disk, name: Bytes, log: seq<ManifestRecord>, records: seq<Bytes>, fields: seq<seq<Field>>) {
    && |log| == |records| == |fields|
    && forall i :: 0 <= i < |log| ==> RecordWritten(disk, name, log[i], records[i], fields[i])
  }

  ghost predicate RecordWritten(disk: Disk, name: Bytes, m: ManifestRecord, record: Bytes, fields: seq<Field>) {
    && Encodes(record, fields, ToEdit(disk, m)) && (m.comparator.Some? ==> m.comparator.value == name)
    && forall i :: 0 <= i < |m.edit.newFiles| ==> OnDisk(disk, m.edit.newFiles[i].file)
  }

  /** EncodeTo and AddRecord for every record. */
  method Write(crc: Log.Checksum, disk: Disk, name: Bytes, log: seq<ManifestRecord>)
      returns (file: Bytes, ghost records: seq<Bytes>, ghost fields: seq<seq<Field>>)
    requires forall i :: 0 <= i < |log| ==> EditOK(ToEdit(disk, log[i])) && (log[i].comparator.Some? ==> log[i].comparator.value == name)
    requires forall i, j :: 0 <= i < |log| && 0 <= j < |log[i].edit.newFiles| ==> OnDisk(disk, log[i].edit.newFiles[j].file)
    ensures Written(disk, name, log, records, fields) && file == Log.EncodedAll(crc, 0, records)
  {
    hide Encodes, EditOK, ToEdit, OnDisk;
    var writer := new Log.Writer(crc);
    records, fields := [], [];
    assert log[..0] == [];
    for i := 0 to |log|
      invariant writer.Valid() && writer.crc == crc && writer.records == records && fresh(writer)
      invariant Written(disk, name, log[..i], records, fields)
      modifies writer
    {
      var dst, fs, _ := EncodeTo(ToEdit(disk, log[i]));
      assert RecordWritten(disk, name, log[i], dst, fs);
      writer.AddRecord(dst);
      WrittenMore(disk, name, log, i, records, fields, dst, fs);
      records, fields := records + [dst], fields + [fs];
    }
    assert log[..|log|] == log;
    file := writer.dest;
  }

  lemma WrittenMore(disk: Disk, name: Bytes, log: seq<ManifestRecord>, i: nat, records: seq<Bytes>, fields: seq<seq<Field>>,
                    dst: Bytes, fs: seq<Field>)
    requires i < |log| && Written(disk, name, log[..i], records, fields) && RecordWritten(disk, name, log[i], dst, fs)
    ensures Written(disk, name, log[..i+1], records + [dst], fields + [fs])
  {
    hide RecordWritten;
    assert log[..i+1] == log[..i] + [log[i]];
  }

  datatype Recovered = Failed | Ready(version: Version, logNumber: nat, nextFile: nat, lastSequence: nat)

  /** What recovery makes of the records. */
  ghost function Expected(log: seq<ManifestRecord>, versions: seq<Version>): Recovered
    requires |log| == |versions|
  {
    var nextFile, lastSequence, logNumber := LastOf(NextFiles(log)), LastOf(LastSequences(log)), LastOf(LogNumbers(log));
    if nextFile.None? || logNumber.None? || lastSequence.None? || log == [] then Failed
    else Ready(versions[|versions|-1], logNumber.value, nextFile.value + 1, lastSequence.value)
  }

  /** DecodeFrom for every record that the log reader returns. */
  method Decode(disk: Disk, name: Bytes, records: seq<Bytes>, ghost log: seq<ManifestRecord>, ghost fields: seq<seq<Field>>)
      returns (result: Option<seq<ManifestRecord>>)
    ensures Written(disk, name, log, records, fields) ==> result == Some(log)
  {
    hide Encodes, OnDisk, ToEdit, FromEdit;
    var r: seq<ManifestRecord> := [];
    ghost var good := Written(disk, name, log, records, fields);
    for i := 0 to |records|
      invariant good ==> r == log[..i]
    {
      assert good ==> RecordWritten(disk, name, log[i], records[i], fields[i]);
      var edit := DecodeRecord(disk, name, records[i], if good then log[i] else ManifestRecord(VersionEdit(None, {}, []), None, None, None, None, []),
                               if good then fields[i] else []);
      if edit.None? || (edit.value.comparator.Some? && edit.value.comparator.value != name) {
        return None;
      }
      assert good ==> log[..i+1] == log[..i] + [log[i]];
      r := r + [edit.value];
    }
    assert good ==> log[..|records|] == log;
    result := Some(r);
  }

  method DecodeRecord(disk: Disk, name: Bytes, record: Bytes, ghost m: ManifestRecord, ghost fields: seq<Field>)
      returns (r: Option<ManifestRecord>)
    ensures RecordWritten(disk, name, m, record, fields) ==> r == Some(m)
  {
    if RecordWritten(disk, name, m, record, fields) { FieldsOfEncoding(fields); }
    var edit := DecodeFrom(record);
    if edit.None? {
      return None;
    }
    if RecordWritten(disk, name, m, record, fields) { FromTo(disk, m); }
    r := Some(FromEdit(disk, edit.value));
  }

  /** VersionSet::Recover on any prefix of the file's bytes: the version, file by file, after the last record
      that is completely there, with its log number, next file number and last sequence number; it fails
      exactly if one of the numbers is in none of these records. */
  method Recover(crc: Log.Checksum, file: Bytes, disk: Disk, name: Bytes, ghost log: seq<ManifestRecord>,
                 ghost records: seq<Bytes>, ghost fields: seq<seq<Field>>, ghost versions: seq<Version>)
      returns (r: Recovered)
    requires Written(disk, name, log, records, fields) && Describes(Edits(log), versions)
    requires file <= Log.EncodedAll(crc, 0, records)
    ensures var n := Log.Complete(crc, 0, records, |file|); n <= |log| == |versions| && r == Expected(log[..n], versions[..n])
  {
    hide RecordWritten, Describes, Stored, Log.EncodedAll, Log.Complete, LastOf;
    DescribesLength(Edits(log), versions);
    ghost var n := Log.Complete(crc, 0, records, |file|);
    var whole, reports := Log.ReadAll(crc, true, file, records);
    WrittenPrefix(disk, name, log, records, fields, n);
    var decoded := Decode(disk, name, whole, log[..n], fields[..n]);
    if decoded.None? {
      return Failed;
    }
    var list := decoded.value;
    var nextFile, lastSequence, logNumber := Numbers(list);
    if nextFile.None? || logNumber.None? || lastSequence.None? || list == [] {
      return Failed;
    }
    DescribesPrefix(Edits(log), versions, n);
    assert Edits(log)[..n] == Edits(list);
    var v, l := VersionSets.Recover(Edits(list), versions[..n]);
    LogNumberIs(list);
    r := Ready(v, l, nextFile.value + 1, lastSequence.value);
  }

  method Numbers(log: seq<ManifestRecord>) returns (nextFile: Option<nat>, lastSequence: Option<nat>, logNumber: Option<nat>)
    ensures nextFile == LastOf(NextFiles(log)) && lastSequence == LastOf(LastSequences(log)) && logNumber == LastOf(LogNumbers(log))
  {
    nextFile, lastSequence, logNumber := None, None, None;
    for i := 0 to |log|
      invariant nextFile == LastOf(NextFiles(log[..i])) && lastSequence == LastOf(LastSequences(log[..i]))
      invariant logNumber == LastOf(LogNumbers(log[..i]))
    {
      assert NextFiles(log[..i+1]) == NextFiles(log[..i]) + [log[i].nextFile];
      assert LastSequences(log[..i+1]) == LastSequences(log[..i]) + [log[i].lastSequence];
      assert LogNumbers(log[..i+1]) == LogNumbers(log[..i]) + [log[i].edit.logNumber];
      LastOfMore(NextFiles(log[..i]), log[i].nextFile);
      LastOfMore(LastSequences(log[..i]), log[i].lastSequence);
      LastOfMore(LogNumbers(log[..i]), log[i].edit.logNumber);
      if log[i].edit.logNumber.Some? { logNumber := log[i].edit.logNumber; }
      if log[i].nextFile.Some? { nextFile := log[i].nextFile; }
      if log[i].lastSequence.Some? { lastSequence := log[i].lastSequence; }
    }
    assert log[..|log|] == log;
  }

  lemma WrittenPrefix(disk: Disk, name: Bytes, log: seq<ManifestRecord>, records: seq<Bytes>, fields: seq<seq<Field>>, n: nat)
    requires Written(disk, name, log, records, fields) && n <= |log|
    ensures Written(disk, name, log[..n], records[..n], fields[..n])
  {
    hide RecordWritten;
  }

  lemma DescribesLength(records: seq<VersionEdit>, versions: seq<Version>)
    requires Describes(records, versions)
    ensures |records| == |versions| > 0
  {
  }

  lemma DescribesPrefix(records: seq<VersionEdit>, versions: seq<Version>, n: nat)
    requires Describes(records, versions) && 0 < n <= |records|
    ensures |versions| == |records| && Describes(records[..n], versions[..n])
  {
    hide Stored;
    forall i | 1 <= i < n
      ensures FreshFiles(versions[..n][..i], records[..n][i]) && Applied(versions[..n][i-1], records[..n][i], versions[..n][i])
    {
      assert versions[..n][..i] == versions[..i];
    }
  }

  function Least(a: nat, b: nat): nat { if a < b then a else b }

  /** Write a MANIFEST, tear it anywhere, and recover: the last complete record counts, and for the whole file
      that is the last one written. */
  method RoundTrip(crc: Log.Checksum, disk: Disk, name: Bytes, log: seq<ManifestRecord>, cut: nat, ghost versions: seq<Version>)
      returns (r: Recovered, ghost records: seq<Bytes>)
    requires Describes(Edits(log), versions)
    requires forall i :: 0 <= i < |log| ==> EditOK(ToEdit(disk, log[i])) && (log[i].comparator.Some? ==> log[i].comparator.value == name)
    requires forall i, j :: 0 <= i < |log| && 0 <= j < |log[i].edit.newFiles| ==> OnDisk(disk, log[i].edit.newFiles[j].file)
    ensures var n := Log.Complete(crc, 0, records, Least(cut, |Log.EncodedAll(crc, 0, records)|));
      && n <= |log| == |versions| && r == Expected(log[..n], versions[..n])
      && (cut >= |Log.EncodedAll(crc, 0, records)| ==> n == |log|)
    ensures exists n: nat :: n <= |log| == |versions| && r == Expected(log[..n], versions[..n])
  {
    hide EditOK, OnDisk, Describes, Written, Log.EncodedAll, Log.Complete, Expected, ToEdit, Edits, Log.Encoded;
    DescribesLength(Edits(log), versions);
    var file;
    ghost var fields;
    file, records, fields := Write(crc, disk, name, log);
    Log.WholeFileIsComplete(crc, 0, records);
    WrittenLength(disk, name, log, records, fields);
    r := Recover(crc, file[..Least(cut, |file|)], disk, name, log, records, fields, versions);
  }

  lemma WrittenLength(disk: Disk, name: Bytes, log: seq<ManifestRecord>, records: seq<Bytes>, fields: seq<seq<Field>>)
    requires Written(disk, name, log, records, fields)
    ensures |log| == |records| == |fields|
  {
  }
}
