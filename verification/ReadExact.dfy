/** Exactly when a compaction or a move changes what a reader reads (DBImpl::Get in leveldb/db/db_impl.cc, on
    the version that InstallCompactionResults installs). */
module ReadExact {
  import opened Options
  import opened Slices
  import opened Runs
  import opened Versions
  import opened Builder
  import opened Picker
  import opened Compactions
  import opened CompactionWork
  import opened Install
  import opened Store

  // ---------------------------------------------------------------- what a read finds

  /** `e` is what DBImpl::Get finds: the newest visible entry of the first place that has one. */
  ghost predicate Answers(st: Store, user: UserKey, s: nat, e: Entry) {
    if !NoneIn(st.mem, user, s) then IsNewest(st.mem, user, s, e)
    else if !NoneIn(ImmRun(st), user, s) then IsNewest(ImmRun(st), user, s, e)
    else FirstAnswer(st.version, user, s, e)
  }

  /** What it returns. */
  ghost function StoreGet(st: Store, user: UserKey, s: nat): Option<Bytes> {
    if exists e :: Answers(st, user, s, e) then
      var e :| Answers(st, user, s, e);
      ToOption(Answer(e))
    else None
  }

  lemma AnswerIsStored(st: Store, user: UserKey, s: nat, e: Entry)
    requires Answers(st, user, s, e)
    ensures InStore(st, e) && e.key.user == user && e.key.sequence <= s
  {
    if NoneIn(st.mem, user, s) && NoneIn(ImmRun(st), user, s) {
      var level :| 0 <= level < |st.version| && AnswersAt(st.version, level, user, s, e);
      assert InFiles(st.version[level], e);
    }
  }

  lemma SameSequence(st: Store, user: UserKey, s: nat, a: Entry, b: Entry)
    requires Answers(st, user, s, a) && Answers(st, user, s, b)
    ensures a.key.sequence == b.key.sequence
  {
    if !NoneIn(st.mem, user, s) || !NoneIn(ImmRun(st), user, s) {
      assert !Less(a.key, b.key) && !Less(b.key, a.key);
    } else {
      var l :| 0 <= l < |st.version| && AnswersAt(st.version, l, user, s, a);
      var m :| 0 <= m < |st.version| && AnswersAt(st.version, m, user, s, b);
      assert l < m ==> NoneVisible(st.version[l], user, s);
      assert m < l ==> NoneVisible(st.version[m], user, s);
    }
  }

  lemma ReadIs(st: Store, user: UserKey, s: nat, e: Entry)
    requires StoredFromHistory(st) && Answers(st, user, s, e)
    ensures StoreGet(st, user, s) == ToOption(Answer(e))
  {
    var x :| Answers(st, user, s, x) && StoreGet(st, user, s) == ToOption(Answer(x));
    SameSequence(st, user, s, e, x);
    AnswerIsStored(st, user, s, e);
    AnswerIsStored(st, user, s, x);
    assert FromHistory(st, e) && FromHistory(st, x);
  }

  /** No entry of the user key is stored where a read at `s` looks. */
  ghost predicate NothingFound(st: Store, user: UserKey, s: nat) {
    NoneIn(st.mem, user, s) && NoneIn(ImmRun(st), user, s) &&
    forall l :: 0 <= l < |st.version| ==> NoneVisible(st.version[l], user, s)
  }

  lemma NothingReads(st: Store, user: UserKey, s: nat)
    requires NothingFound(st, user, s)
    ensures StoreGet(st, user, s) == None
  {
    forall e ensures !Answers(st, user, s, e) {
      assert forall l :: 0 <= l < |st.version| && NoneVisible(st.version[l], user, s) ==>
               !NewestIn(st.version[l], user, s, e);
    }
  }

  lemma NothingStored(st: Store, user: UserKey, s: nat)
    requires NothingVisible(st, user, s)
    ensures NothingFound(st, user, s)
  {
    forall l | 0 <= l < |st.version| ensures NoneVisible(st.version[l], user, s) {
      forall f, e | f in st.version[l] && e in f.entries && e.key.user == user ensures e.key.sequence > s {
        assert InFiles(st.version[l], e);
      }
    }
  }

  /** Either nothing is visible or there is a newest visible entry. */
  lemma {:induction false} NewestExists(st: Store, user: UserKey, s: nat) returns (e: Option<Entry>)
    requires StoredFromHistory(st)
    ensures match e case Some(x) => NewestInStore(st, user, s, x) case None => NothingVisible(st, user, s)
    decreases s
  {
    hide InStore;
    if x :| InStore(st, x) && x.key.user == user && x.key.sequence == s {
      e := Some(x);
    } else if s == 0 {
      assert forall x :: InStore(st, x) ==> FromHistory(st, x);
      e := None;
    } else {
      e := NewestExists(st, user, s - 1);
    }
  }

  /** In a state that keeps the invariant a read finds the newest visible entry. */
  lemma NewestAnswers(st: Store, user: UserKey, s: nat, e: Entry)
    requires StoreOK(st) && NewestInStore(st, user, s, e)
    ensures Answers(st, user, s, e)
  {
    StoredFacts(st);
    hide StoreOK, VersionOK, StoredFromHistory, Retained;
    if e in st.mem {
      NewestOfRun(st, st.mem, user, s, e);
    } else {
      assert NoneIn(st.mem, user, s) by {
        forall x | x in st.mem && x.key.user == user ensures x.key.sequence > s {
          MemNewer(st, x, e);
          if x.key.sequence <= s { IsFromHistory(st, x); IsFromHistory(st, e); NewerInHistory(st, x, e); }
        }
      }
      if e in ImmRun(st) {
        NewestOfRun(st, ImmRun(st), user, s, e);
      } else {
        assert NoneIn(ImmRun(st), user, s) by {
          forall x | x in ImmRun(st) && x.key.user == user ensures x.key.sequence > s {
            MemAboveFiles(st, x, e);
            if x.key.sequence <= s { IsFromHistory(st, x); IsFromHistory(st, e); NewerInHistory(st, x, e); }
          }
        }
        NewestInVersionAnswers(st, user, s, e);
      }
    }
  }

  lemma IsFromHistory(st: Store, e: Entry)
    requires StoredFromHistory(st) && InStore(st, e)
    ensures FromHistory(st, e)
  {
  }

  lemma NewestOfRun(st: Store, run: Run, user: UserKey, s: nat, e: Entry)
    requires StoredFromHistory(st) && NewestInStore(st, user, s, e) && e in run && Sorted(run)
    requires forall x :: x in run ==> InStore(st, x)
    ensures IsNewest(run, user, s, e) && !NoneIn(run, user, s)
  {
    forall x | x in run && x.key.user == user && x.key.sequence <= s ensures !Less(x.key, e.key) {
      assert FromHistory(st, x) && FromHistory(st, e);
    }
  }

  lemma NewestInVersionAnswers(st: Store, user: UserKey, s: nat, e: Entry)
    requires VersionOK(st.version) && StoredFromHistory(st)
    requires NewestInStore(st, user, s, e) && InVersion(st.version, e)
    ensures FirstAnswer(st.version, user, s, e)
  {
    var v := st.version;
    var l :| 0 <= l < |v| && InFiles(v[l], e);
    var g: File :| g in v[l] && e in g.entries;
    assert |v| == NUM_LEVELS;
    hide VersionOK, StoredFromHistory, NewestInStore, InVersion;
    forall k: nat, f: File, x: Entry | k < l && f in v[k] && x in f.entries && x.key.user == user
      ensures x.key.sequence > s
    {
      AboveInvisible(st, user, s, e, l, g, k, f, x);
    }
    LevelNewest(st, user, s, e, l);
    assert AnswersAt(v, l, user, s, e);
  }

  /** Nothing visible is above the newest visible entry. */
  lemma AboveInvisible(st: Store, user: UserKey, s: nat, e: Entry, l: nat, g: File, k: nat, f: File, x: Entry)
    requires VersionOK(st.version) && StoredFromHistory(st) && NewestInStore(st, user, s, e)
    requires k < l < NUM_LEVELS && g in st.version[l] && e in g.entries
    requires f in st.version[k] && x in f.entries && x.key.user == user
    ensures x.key.sequence > s
  {
    ShallowerIsNewer(st.version, k, l, f, g, x, e);
    hide VersionOK;
    StoredAt(st, k, f, x);
    StoredAt(st, l, g, e);
    NewerInHistory(st, x, e);
  }

  lemma StoredAt(st: Store, l: nat, f: File, x: Entry)
    requires StoredFromHistory(st) && l < |st.version| && f in st.version[l] && x in f.entries
    ensures InStore(st, x) && FromHistory(st, x)
  {
    assert InFiles(st.version[l], x);
  }

  lemma LevelNewest(st: Store, user: UserKey, s: nat, e: Entry, l: nat)
    requires StoredFromHistory(st) && NewestInStore(st, user, s, e) && l < |st.version| && InFiles(st.version[l], e)
    ensures NewestIn(st.version[l], user, s, e)
  {
    forall f, x | f in st.version[l] && x in f.entries && x.key.user == user && x.key.sequence <= s
      ensures x.key.sequence <= e.key.sequence
    {
      StoredAt(st, l, f, x);
    }
  }

  /** A sequence number that somebody reads at: a live snapshot, or the latest one. */
  ghost predicate Reader(st: Store, s: nat) { s in st.snapshots || s == st.lastSequence }

  /** Every read gives the newest write. */
  ghost predicate ReadsRight(st: Store) {
    forall user: UserKey, s: nat :: Reader(st, s) && s <= |st.history| ==> StoreGet(st, user, s) == PlainGet(st.history, user, s)
  }

  lemma ReaderInRange(st: Store, s: nat)
    requires SnapshotsOK(st) && Reader(st, s)
    ensures Floor(st) <= s <= st.lastSequence <= |st.history|
  {
    if s in st.snapshots { LiveAboveFloor(st, s); }
    else if st.snapshots != [] { assert st.snapshots[0] <= st.lastSequence; }
  }

  /** Where the invariant holds, every read gives the newest write. */
  lemma ReadGivesNewest(st: Store, user: UserKey, s: nat)
    requires StoreOK(st) && Floor(st) <= s <= |st.history|
    ensures StoreGet(st, user, s) == PlainGet(st.history, user, s)
  {
    StoredFacts(st);
    hide StoreOK, VersionOK, Layered, InStore, StoreGet, Answers;
    var e := NewestExists(st, user, s);
    match e
    case Some(x) =>
      NewestAnswers(st, user, s, x);
      ReadIs(st, user, s, x);
      NewestStoredIsLatest(st, user, s, x);
    case None =>
      NothingStored(st, user, s);
      NothingReads(st, user, s);
      NothingStoredIsNothing(st, user, s);
  }

  lemma OKReadsRight(st: Store)
    requires StoreOK(st)
    ensures ReadsRight(st)
  {
    StoredFacts(st);
    hide StoreOK, StoreGet;
    forall user: UserKey, s: nat | Reader(st, s) && s <= |st.history|
      ensures StoreGet(st, user, s) == PlainGet(st.history, user, s)
    {
      ReaderInRange(st, s);
      ReadGivesNewest(st, user, s);
    }
  }

  // ---------------------------------------------------------------- what an installation changes

  /** The outputs hold the input entries, for a merge without those that a rule drops. */
  ghost predicate OutputsKeep(st: Store, c: Compaction, outputs: Level, merge: bool) {
    forall x :: InFiles(outputs, x) <==>
      InInputs(c, x) && !(merge && (DroppedAsDeletion(st, c, x) || HiddenInInputs(st, c, x)))
  }

  ghost predicate InstallStep(st: Store, c: Compaction, outputs: Level, merge: bool, st': Store) {
    && StoreOK(st) && PickOK(st.version, c) && GoodOutputs(st.version, c, outputs)
    && Installed(st.version, c, outputs, st'.version) && OutputsKeep(st, c, outputs, merge)
    && st' == st.(version := st'.version, nextFile := st'.nextFile)
  }

  /** The first file left behind that continues the input h. */
  ghost predicate NextLeft(v: Version, c: Compaction, h: File, g: File)
    requires PickOK(v, c)
  {
    && LeftBehind(v, c, g) && Continues(h, g)
    && forall f :: LeftBehind(v, c, f) && Continues(h, f) ==> !Less(f.smallest, g.smallest)
  }

  /** The reader at `s` gets the input entry x of h now, and will get the first entry of g, which is left
      behind: g is in the level of inputs0, above the outputs, or x is a deletion that is dropped. */
  ghost predicate Exposed(st: Store, c: Compaction, merge: bool, user: UserKey, s: nat, h: File, g: File, x: Entry)
    requires PickOK(st.version, c)
  {
    && IsInput(c, h) && NextLeft(st.version, c, h, g) && x in h.entries && x.key.user == user == h.largest.user
    && NewestInStore(st, user, s, x)
    && (g in st.version[c.level] || (merge && DroppedAsDeletion(st, c, x)))
  }

  function FirstOf(g: File): Option<Bytes> {
    if g.entries == [] then None else ToOption(Answer(g.entries[0]))
  }

  /** Nobody notices: whoever will get another entry gets the same answer. */
  ghost predicate ReadsKeep(st: Store, c: Compaction, merge: bool)
    requires PickOK(st.version, c)
  {
    forall user: UserKey, s: nat, h: File, g: File, x: Entry ::
      Reader(st, s) && Exposed(st, c, merge, user, s, h, g, x) ==> ToOption(Answer(x)) == FirstOf(g)
  }

  lemma StepParts(st: Store, c: Compaction, outputs: Level, merge: bool, st': Store)
    requires InstallStep(st, c, outputs, merge, st')
    ensures StoreOK(st) && PickOK(st.version, c) && GoodOutputs(st.version, c, outputs)
    ensures Installed(st.version, c, outputs, st'.version) && OutputsKeep(st, c, outputs, merge)
    ensures st' == st.(version := st'.version, nextFile := st'.nextFile)
    ensures StoredFromHistory(st) && VersionOK(st.version) && Layered(st) && SnapshotsOK(st) && Retained(st)
    ensures |st.version| == |st'.version| == NUM_LEVELS && c.level + 1 < NUM_LEVELS
  {
    StoredFacts(st);
  }

  lemma StaysFromHistory(st: Store, c: Compaction, outputs: Level, merge: bool, st': Store)
    requires InstallStep(st, c, outputs, merge, st')
    ensures StoredFromHistory(st') && forall e :: InStore(st', e) ==> InStore(st, e)
  {
    StepParts(st, c, outputs, merge, st');
    hide InstallStep, StoreOK, PickOK, GoodOutputs, Installed, OutputsKeep, VersionOK, Layered, InVersion;
    forall e | InVersion(st'.version, e) ensures InVersion(st.version, e) {
      InstalledContents(st.version, c, outputs, st'.version, e);
      SurvivingWasThere(st.version, c, outputs, e);
    }
    assert forall e :: InStore(st', e) ==> FromHistory(st, e);
    assert forall e :: FromHistory(st, e) ==> FromHistory(st', e);
  }

  /** What is in a level afterwards was there or came with the outputs. */
  lemma AfterwardsThere(st: Store, c: Compaction, outputs: Level, merge: bool, st': Store, l: nat, f: File)
    requires InstallStep(st, c, outputs, merge, st') && l < NUM_LEVELS && |st'.version| == NUM_LEVELS && f in st'.version[l]
    ensures |st.version| == NUM_LEVELS && AfterInstall(st.version, c, outputs, l, f)
    ensures f in st.version[l] || (l == c.level + 1 && f in outputs)
    ensures l == c.level ==> f in st.version[l] && LeftInLevel(st.version, c, f)
    ensures l == c.level + 1 && f !in outputs ==> f in st.version[l] && f !in c.inputs1
  {
    assert AfterInstall(st.version, c, outputs, l, f);
  }

  /** The memtables have nothing visible if the newest visible entry is in a file. */
  lemma MemInvisible(st: Store, user: UserKey, s: nat, x: Entry)
    requires Layered(st) && StoredFromHistory(st) && NewestInStore(st, user, s, x) && InVersion(st.version, x)
    ensures NoneIn(st.mem, user, s) && NoneIn(ImmRun(st), user, s)
  {
    forall e | (e in st.mem || e in ImmRun(st)) && e.key.user == user ensures e.key.sequence > s {
      MemAboveFiles(st, e, x);
      assert InStore(st, e) && InStore(st, x) && FromHistory(st, e) && FromHistory(st, x);
      NewerInHistory(st, e, x);
    }
  }

  /** Above the level of the newest visible entry, the installation makes nothing visible: outputs come
      from above it as well. */
  lemma StillInvisible(st: Store, c: Compaction, outputs: Level, merge: bool, st': Store,
                       user: UserKey, s: nat, x: Entry, m: nat, f: File, l: nat)
    requires InstallStep(st, c, outputs, merge, st') && NewestInStore(st, user, s, x)
    requires m < NUM_LEVELS == |st.version| == |st'.version| && f in st.version[m] && x in f.entries
    requires l < m && (l == c.level + 1 || l < c.level || c.level + 1 < l)
    ensures NoneVisible(st'.version[l], user, s)
  {
    StepParts(st, c, outputs, merge, st');
    hide StoreOK, VersionOK, GoodOutputs, Installed, OutputsKeep, Layered, NewestInStore, StoredFromHistory;
    forall g, e | g in st'.version[l] && e in g.entries && e.key.user == user ensures e.key.sequence > s {
      AfterwardsThere(st, c, outputs, merge, st', l, g);
      if g in st.version[l] {
        AboveInvisible(st, user, s, x, m, f, l, g, e);
      } else {
        var h := OutputEntry(st.version, c, outputs, g, e);
        InputIsInLevel(st.version, c, h);
        AboveInvisible(st, user, s, x, m, f, InputLevel(c, h), h, e);
      }
    }
  }

  /** The newest visible entry is the newest of its level afterwards. */
  lemma StaysNewest(st: Store, c: Compaction, outputs: Level, merge: bool, st': Store,
                    user: UserKey, s: nat, x: Entry, l: nat)
    requires InstallStep(st, c, outputs, merge, st') && NewestInStore(st, user, s, x)
    requires l < NUM_LEVELS == |st'.version| && InFiles(st'.version[l], x)
    ensures NewestIn(st'.version[l], user, s, x)
  {
    StaysFromHistory(st, c, outputs, merge, st');
    hide InstallStep;
    forall f, e | f in st'.version[l] && e in f.entries && e.key.user == user && e.key.sequence <= s
      ensures e.key.sequence <= x.key.sequence
    {
      StoredAt(st', l, f, e);
    }
  }

  /** An entry that is in no input is read as before. */
  lemma OthersRead(st: Store, c: Compaction, outputs: Level, merge: bool, st': Store, user: UserKey, s: nat, x: Entry)
    requires InstallStep(st, c, outputs, merge, st') && NewestInStore(st, user, s, x) && !InInputs(c, x)
    ensures Answers(st', user, s, x)
  {
    hide InstallStep, StoreOK, VersionOK, PickOK, GoodOutputs, Installed, OutputsKeep, Layered, NewestInStore, NewestIn, NoneVisible;
    hide StoredFromHistory, Retained, SnapshotsOK, NoneIn, Answers, InInputs, InFiles;
    StepParts(st, c, outputs, merge, st');
    assert InStore(st, x) && x.key.user == user && x.key.sequence <= s by { NewestIsStored(st, user, s, x); }
    if x in st.mem || x in ImmRun(st) {
      NewestAnswers(st, user, s, x);
      InMemAnswers(st, st', user, s, x);
    } else {
      MemInvisible(st, user, s, x);
      var m, f := FileOf(st, c, outputs, merge, st', x);
      StaysNewest(st, c, outputs, merge, st', user, s, x, m);
      forall l | 0 <= l < m ensures NoneVisible(st'.version[l], user, s) {
        if l == c.level { LevelInvisible(st, c, outputs, merge, st', user, s, x, m, f); }
        else { StillInvisible(st, c, outputs, merge, st', user, s, x, m, f, l); }
      }
      LevelAnswers(st', user, s, x, m);
    }
  }

  lemma NewestIsStored(st: Store, user: UserKey, s: nat, x: Entry)
    requires NewestInStore(st, user, s, x)
    ensures InStore(st, x) && x.key.user == user && x.key.sequence <= s
  {
  }

  lemma LevelAnswers(st: Store, user: UserKey, s: nat, x: Entry, m: nat)
    requires NoneIn(st.mem, user, s) && NoneIn(ImmRun(st), user, s) && m < |st.version|
    requires (forall l :: 0 <= l < m ==> NoneVisible(st.version[l], user, s)) && NewestIn(st.version[m], user, s, x)
    ensures Answers(st, user, s, x)
  {
    assert AnswersAt(st.version, m, user, s, x);
  }

  /** The file of an entry that is in no input stays. */
  lemma FileOf(st: Store, c: Compaction, outputs: Level, merge: bool, st': Store, x: Entry) returns (m: nat, f: File)
    requires InstallStep(st, c, outputs, merge, st') && InVersion(st.version, x) && !InInputs(c, x)
    ensures m < NUM_LEVELS == |st.version| == |st'.version| && f in st.version[m] && x in f.entries
    ensures InFiles(st'.version[m], x)
  {
    hide InstallStep, StoreOK, VersionOK, PickOK, GoodOutputs, Installed, OutputsKeep, Layered, StoredFromHistory;
    hide Retained, SnapshotsOK, AfterInstall;
    StepParts(st, c, outputs, merge, st');
    m :| 0 <= m < |st.version| && InFiles(st.version[m], x);
    f :| f in st.version[m] && x in f.entries;
    NotInInputs(c, f, x);
    OtherFileStays(st.version, c, outputs, st'.version, m, f);
  }

  lemma OtherFileStays(v: Version, c: Compaction, outputs: Level, v': Version, m: nat, f: File)
    requires PickOK(v, c) && Installed(v, c, outputs, v') && m < NUM_LEVELS && f in v[m] && f !in c.inputs0 && f !in c.inputs1
    ensures f in v'[m]
  {
    assert AfterInstall(v, c, outputs, m, f);
  }

  lemma NotInInputs(c: Compaction, f: File, x: Entry)
    requires x in f.entries && !InInputs(c, x)
    ensures f !in c.inputs0 && f !in c.inputs1
  {
  }

  lemma InMemAnswers(st: Store, st': Store, user: UserKey, s: nat, x: Entry)
    requires Answers(st, user, s, x) && st'.mem == st.mem && st'.imm == st.imm
    requires x in st.mem || x in ImmRun(st)
    requires x.key.user == user && x.key.sequence <= s
    ensures Answers(st', user, s, x)
  {
  }

  lemma LevelInvisible(st: Store, c: Compaction, outputs: Level, merge: bool, st': Store,
                       user: UserKey, s: nat, x: Entry, m: nat, f: File)
    requires InstallStep(st, c, outputs, merge, st') && NewestInStore(st, user, s, x)
    requires m < NUM_LEVELS == |st.version| == |st'.version| && f in st.version[m] && x in f.entries && c.level < m
    ensures NoneVisible(st'.version[c.level], user, s)
  {
    StepParts(st, c, outputs, merge, st');
    hide StoreOK, VersionOK, GoodOutputs, Installed, OutputsKeep, Layered, NewestInStore, StoredFromHistory;
    forall g, e | g in st'.version[c.level] && e in g.entries && e.key.user == user ensures e.key.sequence > s {
      AfterwardsThere(st, c, outputs, merge, st', c.level, g);
      AboveInvisible(st, user, s, x, m, f, c.level, g, e);
    }
  }

  /** Nothing visible for the reader is left behind in the inputs' level. */
  ghost predicate NoneLeft(st: Store, c: Compaction, user: UserKey, s: nat)
    requires PickOK(st.version, c)
  {
    forall g, y :: LeftInLevel(st.version, c, g) && y in g.entries && y.key.user == user ==> y.key.sequence > s
  }

  lemma NoneLeftInvisible(st: Store, c: Compaction, outputs: Level, merge: bool, st': Store, user: UserKey, s: nat)
    requires InstallStep(st, c, outputs, merge, st') && NoneLeft(st, c, user, s)
    requires c.level < NUM_LEVELS == |st'.version|
    ensures NoneVisible(st'.version[c.level], user, s)
  {
    forall g, e | g in st'.version[c.level] && e in g.entries && e.key.user == user ensures e.key.sequence > s {
      AfterwardsThere(st, c, outputs, merge, st', c.level, g);
    }
  }

  /** An input entry that is kept is read from the outputs, unless something is left behind above them. */
  lemma KeptRead(st: Store, c: Compaction, outputs: Level, merge: bool, st': Store, user: UserKey, s: nat, h: File, x: Entry)
    requires InstallStep(st, c, outputs, merge, st') && NewestInStore(st, user, s, x)
    requires IsInput(c, h) && x in h.entries && InFiles(outputs, x) && NoneLeft(st, c, user, s)
    ensures Answers(st', user, s, x)
  {
    hide InstallStep, StoreOK, VersionOK, PickOK, GoodOutputs, Installed, OutputsKeep, Layered, NewestInStore, NewestIn, NoneVisible;
    hide StoredFromHistory, Retained, SnapshotsOK, NoneIn, Answers, InInputs, InFiles, NoneLeft, IsInput;
    StepParts(st, c, outputs, merge, st');
    var n := c.level + 1;
    InputKnown(st.version, c, h, x);
    OutputThere(st, c, outputs, merge, st', x);
    MemInvisible(st, user, s, x);
    StaysNewest(st, c, outputs, merge, st', user, s, x, n);
    forall l | 0 <= l < n ensures NoneVisible(st'.version[l], user, s) {
      if l == c.level { NoneLeftInvisible(st, c, outputs, merge, st', user, s); }
      else { StillInvisible(st, c, outputs, merge, st', user, s, x, InputLevel(c, h), h, l); }
    }
    LevelAnswers(st', user, s, x, n);
  }

  lemma InputKnown(v: Version, c: Compaction, h: File, x: Entry)
    requires PickOK(v, c) && IsInput(c, h) && x in h.entries
    ensures InVersion(v, x) && InInputs(c, x) && c.level <= InputLevel(c, h) <= c.level + 1 < NUM_LEVELS == |v|
    ensures h in v[InputLevel(c, h)]
  {
    InputEntryKnown(v, c, h, x);
    InputIsInLevel(v, c, h);
  }

  lemma OutputThere(st: Store, c: Compaction, outputs: Level, merge: bool, st': Store, x: Entry)
    requires InstallStep(st, c, outputs, merge, st') && InFiles(outputs, x)
    ensures c.level + 1 < NUM_LEVELS == |st'.version| && InFiles(st'.version[c.level+1], x)
  {
    StepParts(st, c, outputs, merge, st');
    var o :| o in outputs && x in o.entries;
    assert AfterInstall(st.version, c, outputs, c.level + 1, o);
  }

  // ---------------------------------------------------------------- what is left behind

  /** A file left behind that continues an input is in the input's level. */
  lemma ContinuesInLevel(v: Version, c: Compaction, h: File, g: File)
    requires VersionOK(v) && PickOK(v, c) && IsInput(c, h) && LeftBehind(v, c, g) && Continues(h, g)
    ensures h in c.inputs0 <==> g in v[c.level]
    ensures 0 < InputLevel(c, h) < NUM_LEVELS == |v| && h in v[InputLevel(c, h)] && g in v[InputLevel(c, h)]
    ensures WellFormed(h) && WellFormed(g)
  {
    LevelFacts(v, c.level);
    LevelFacts(v, c.level + 1);
    InputIsInLevel(v, c, h);
    LevelInBounds(v, c);
    var x, y := h.entries[|h.entries|-1], g.entries[0];
    assert x in h.entries && y in g.entries;
    ContinuingIsOlder(h, g, x, y);
    OlderLeftContinues(v, c, h, g, x, y);
  }

  /** If some file left behind continues an input, there is a first one. */
  lemma {:induction false} NextExists(v: Version, c: Compaction, h: File, l: nat, n: nat) returns (g: File)
    requires VersionOK(v) && PickOK(v, c) && IsInput(c, h) && l == InputLevel(c, h) < NUM_LEVELS == |v| && n <= |v[l]|
    requires exists i :: 0 <= i < n && LeftBehind(v, c, v[l][i]) && Continues(h, v[l][i])
    ensures NextLeft(v, c, h, g) && g in v[l]
    decreases n
  {
    hide VersionOK, PickOK, LeftBehind, Continues, IsInput;
    if j :| 0 <= j < n - 1 && LeftBehind(v, c, v[l][j]) && Continues(h, v[l][j]) {
      g := NextExists(v, c, h, l, n - 1);
    } else {
      g := v[l][n-1];
      forall f | LeftBehind(v, c, f) && Continues(h, f) ensures !Less(f.smallest, g.smallest) {
        ContinuesInLevel(v, c, h, f);
        LevelFacts(v, l);
        var k :| 0 <= k < |v[l]| && v[l][k] == f;
        if k > n - 1 { assert BySmallest(v[l][n-1], v[l][k]); }
      }
    }
  }

  /** Of the file's entries for the shared key, and of those of the files after it, the first is newest. */
  lemma NextIsNewestLeft(v: Version, c: Compaction, h: File, g: File, x: Entry, f: File, e: Entry)
    requires VersionOK(v) && PickOK(v, c) && IsInput(c, h) && NextLeft(v, c, h, g)
    requires x in h.entries && LeftBehind(v, c, f) && e in f.entries && e.key.user == x.key.user && Less(x.key, e.key)
    ensures g.entries != [] && (e == g.entries[0] || Less(g.entries[0].key, e.key))
  {
    hide VersionOK, PickOK, LeftBehind, IsInput, Continues, WellFormed, LevelDisjoint;
    OlderLeftContinues(v, c, h, f, x, e);
    ContinuesInLevel(v, c, h, g);
    ContinuesInLevel(v, c, h, f);
    LevelFacts(v, InputLevel(c, h));
    FirstOfFirst(v[InputLevel(c, h)], f, g, e);
  }

  lemma FirstOfFirst(files: Level, f: File, g: File, e: Entry)
    requires AllWellFormed(files) && LevelDisjoint(files) && f in files && g in files && e in f.entries
    requires !Less(f.smallest, g.smallest)
    ensures g.entries != [] && (e == g.entries[0] || Less(g.entries[0].key, e.key))
  {
    assert WellFormed(f) && WellFormed(g);
    if f == g {
      var i :| 0 <= i < |g.entries| && g.entries[i] == e;
    } else {
      DisjointPair(files, f, g);
      hide LevelDisjoint, AllWellFormed;
      EntryInBounds(f, e);
      EntryInBounds(g, g.entries[0]);
      EntryInBounds(f, f.entries[0]);
    }
  }

  // ---------------------------------------------------------------- exactly what changes

  /** If the next file left behind stands in front, or the entry is dropped, the reader gets that file's first
      entry. */
  lemma ExposedRead(st: Store, c: Compaction, outputs: Level, merge: bool, st': Store,
                    user: UserKey, s: nat, h: File, g: File, x: Entry)
    requires InstallStep(st, c, outputs, merge, st') && Floor(st) <= s && Exposed(st, c, merge, user, s, h, g, x)
    ensures g.entries != [] && Answers(st', user, s, g.entries[0])
  {
    hide InstallStep, StoreOK, VersionOK, PickOK, GoodOutputs, Installed, OutputsKeep, Layered, NewestInStore, NewestIn;
    hide StoredFromHistory, Retained, SnapshotsOK, NoneIn, Answers, InInputs, InFiles, NoneLeft, IsInput, Continues;
    hide NoneVisible, LeftBehind, NextLeft;
    StepParts(st, c, outputs, merge, st');
    var v, m := st.version, InputLevel(c, h);
    NextFacts(v, c, h, g);
    ContinuesInLevel(v, c, h, g);
    FirstIsOlder(v, c, h, g, x);
    InputKnown(v, c, h, x);
    MemInvisible(st, user, s, x);
    var y := g.entries[0];
    LeftIsThere(st, c, outputs, merge, st', g, m);
    forall l | 0 <= l < m ensures NoneVisible(st'.version[l], user, s) {
      if l == c.level { LevelInvisible(st, c, outputs, merge, st', user, s, x, m, h); }
      else { StillInvisible(st, c, outputs, merge, st', user, s, x, m, h, l); }
    }
    assert NewestIn(st'.version[m], user, s, y) by { NextIsNewest(st, c, outputs, merge, st', user, s, h, g, x); }
    LevelAnswers(st', user, s, y, m);
  }

  lemma NextFacts(v: Version, c: Compaction, h: File, g: File)
    requires PickOK(v, c) && NextLeft(v, c, h, g)
    ensures LeftBehind(v, c, g) && Continues(h, g)
  {
  }

  lemma LeftIsThere(st: Store, c: Compaction, outputs: Level, merge: bool, st': Store, g: File, m: nat)
    requires InstallStep(st, c, outputs, merge, st') && m < NUM_LEVELS == |st.version| == |st'.version|
    requires LeftBehind(st.version, c, g) && g in st.version[m] && (m == c.level || m == c.level + 1)
    ensures g in st'.version[m]
  {
    StepParts(st, c, outputs, merge, st');
    LeftOnly(st.version, c, g);
    assert AfterInstall(st.version, c, outputs, m, g);
  }

  lemma NextIsNewest(st: Store, c: Compaction, outputs: Level, merge: bool, st': Store,
                     user: UserKey, s: nat, h: File, g: File, x: Entry)
    requires InstallStep(st, c, outputs, merge, st') && Floor(st) <= s && Exposed(st, c, merge, user, s, h, g, x)
    ensures var m := InputLevel(c, h);
      m < NUM_LEVELS == |st'.version| && g.entries != [] && NewestIn(st'.version[m], user, s, g.entries[0])
  {
    hide InstallStep, StoreOK, VersionOK, PickOK, GoodOutputs, Installed, OutputsKeep, Layered, NewestInStore;
    hide StoredFromHistory, Retained, SnapshotsOK, InInputs, IsInput, Continues, LeftBehind, NextLeft, Less;
    StepParts(st, c, outputs, merge, st');
    var v, m := st.version, InputLevel(c, h);
    NextFacts(v, c, h, g);
    ContinuesInLevel(v, c, h, g);
    FirstIsOlder(v, c, h, g, x);
    LeftIsThere(st, c, outputs, merge, st', g, m);
    var y := g.entries[0];
    assert InFiles(st'.version[m], y);
    StaysFromHistory(st, c, outputs, merge, st');
    NewestIsStored(st, user, s, x);
    assert y.key.sequence < x.key.sequence by { FilesOfHistory(st, c, h, g, x, y); }
    forall f, e | f in st'.version[m] && e in f.entries && e.key.user == user && e.key.sequence <= s
      ensures e.key.sequence <= y.key.sequence
    {
      NotNewerThanNext(st, c, outputs, merge, st', user, s, h, g, x, m, f, e);
    }
  }

  lemma FilesOfHistory(st: Store, c: Compaction, h: File, g: File, x: Entry, y: Entry)
    requires StoreOK(st) && PickOK(st.version, c) && IsInput(c, h) && LeftBehind(st.version, c, g)
    requires x in h.entries && y in g.entries && x.key.user == y.key.user && Less(x.key, y.key)
    ensures y.key.sequence < x.key.sequence
  {
    InputKnown(st.version, c, h, x);
    LeftStored(st, c, g, y);
    StoredIsHistory(st, x);
    StoredIsHistory(st, y);
    NewerInHistory(st, x, y);
  }

  lemma LeftStored(st: Store, c: Compaction, g: File, y: Entry)
    requires PickOK(st.version, c) && LeftBehind(st.version, c, g) && y in g.entries
    ensures InStore(st, y)
  {
    var l := if g in st.version[c.level] then c.level else c.level + 1;
    assert InFiles(st.version[l], y);
  }

  lemma NotNewerThanNext(st: Store, c: Compaction, outputs: Level, merge: bool, st': Store,
                         user: UserKey, s: nat, h: File, g: File, x: Entry, m: nat, f: File, e: Entry)
    requires InstallStep(st, c, outputs, merge, st') && Floor(st) <= s && Exposed(st, c, merge, user, s, h, g, x)
    requires m == InputLevel(c, h) < NUM_LEVELS == |st'.version| && f in st'.version[m] && e in f.entries
    requires e.key.user == user && e.key.sequence <= s && g.entries != []
    ensures e.key.sequence <= g.entries[0].key.sequence
  {
    hide InstallStep, StoreOK, VersionOK, PickOK, GoodOutputs, Installed, OutputsKeep, Layered, NewestInStore;
    hide StoredFromHistory, Retained, SnapshotsOK, InInputs, Continues, NextLeft, Less;
    StepParts(st, c, outputs, merge, st');
    NextFacts(st.version, c, h, g);
    ContinuesInLevel(st.version, c, h, g);
    InputKnown(st.version, c, h, x);
    StaysFromHistory(st, c, outputs, merge, st');
    AfterwardsThere(st, c, outputs, merge, st', m, f);
    assert InFiles(st'.version[m], e) && InStore(st', e);
    NewestBounds(st, user, s, x, e);
    if f in outputs && m == c.level + 1 {
      assert InFiles(outputs, e);
      DroppedOutputs(st, c, outputs, merge, h, x, e);
      assert false;
    } else {
      LeftAgain(st, c, h, m, f);
      SeqOrder(st, x, e, h, f, c);
      NextIsNewestLeft(st.version, c, h, g, x, f, e);
      if e != g.entries[0] {
        LeftStored(st, c, g, g.entries[0]);
        FirstInG(st.version, c, h, g);
        StoredIsHistory(st, e);
        StoredIsHistory(st, g.entries[0]);
        FirstUser(st.version, c, h, g);
        NewerInHistory(st, g.entries[0], e);
      }
    }
  }

  lemma NewestBounds(st: Store, user: UserKey, s: nat, x: Entry, e: Entry)
    requires NewestInStore(st, user, s, x) && InStore(st, e) && e.key.user == user && e.key.sequence <= s
    ensures e.key.sequence <= x.key.sequence && x.key.user == user && InStore(st, x)
  {
  }

  lemma FirstInG(v: Version, c: Compaction, h: File, g: File)
    requires VersionOK(v) && PickOK(v, c) && LeftBehind(v, c, g)
    ensures g.entries != [] && g.entries[0] in g.entries
  {
    LevelFacts(v, c.level);
    LevelFacts(v, c.level + 1);
  }

  lemma FirstUser(v: Version, c: Compaction, h: File, g: File)
    requires VersionOK(v) && PickOK(v, c) && LeftBehind(v, c, g) && Continues(h, g)
    ensures g.entries != [] && g.entries[0].key.user == h.largest.user
  {
    LevelFacts(v, c.level);
    LevelFacts(v, c.level + 1);
  }

  /** In the input's level, what is no output was left behind. */
  lemma LeftAgain(st: Store, c: Compaction, h: File, m: nat, f: File)
    requires VersionOK(st.version) && PickOK(st.version, c) && m == InputLevel(c, h) < NUM_LEVELS == |st.version|
    requires f in st.version[m] && (m == c.level ==> f !in c.inputs0) && (m == c.level + 1 ==> f !in c.inputs1)
    ensures LeftBehind(st.version, c, f) && !IsInput(c, f)
  {
    NotAnInput(st.version, c, m, f);
  }

  /** An entry of a file left behind that is not newer than the input's entry is older. */
  lemma SeqOrder(st: Store, x: Entry, e: Entry, h: File, f: File, c: Compaction)
    requires StoreOK(st) && PickOK(st.version, c) && IsInput(c, h) && x in h.entries
    requires LeftBehind(st.version, c, f) && !IsInput(c, f) && e in f.entries && e.key.user == x.key.user
    requires e.key.sequence <= x.key.sequence
    ensures Less(x.key, e.key)
  {
    hide StoreOK, VersionOK, PickOK, Layered, StoredFromHistory, Retained, SnapshotsOK, IsInput;
    StoredFacts(st);
    InputKnown(st.version, c, h, x);
    LeftStored(st, c, f, e);
    StoredIsHistory(st, x);
    StoredIsHistory(st, e);
    var l := if f in st.version[c.level] then c.level else c.level + 1;
    InputEntryIsElsewhere(st.version, c, h, x, l, f);
  }

  /** Once the deletion is dropped the outputs have nothing of its key that the reader sees. */
  lemma DroppedOutputs(st: Store, c: Compaction, outputs: Level, merge: bool, h: File, x: Entry, e: Entry)
    requires StoreOK(st) && PickOK(st.version, c) && OutputsKeep(st, c, outputs, merge)
    requires merge && DroppedAsDeletion(st, c, x) && IsInput(c, h) && x in h.entries
    requires e.key.user == x.key.user && e.key.sequence <= x.key.sequence
    ensures !InFiles(outputs, e)
  {
    hide StoreOK, PickOK, IsInput, DroppedAsDeletion, InInputs;
    InputKnown(st.version, c, h, x);
    DeletionIs(st, c, x);
    if InInputs(c, e) {
      var f := InputFileOf(st.version, c, e);
      StoredIsHistory(st, x);
      StoredIsHistory(st, e);
      assert e.key.sequence < x.key.sequence ==> HiddenInInputs(st, c, e);
    }
  }

  /** A file left behind has something older of the input entry's key. */
  ghost predicate Followed(v: Version, c: Compaction, h: File, x: Entry, g: File)
    requires PickOK(v, c)
  {
    LeftBehind(v, c, g) && Continues(h, g) && x.key.user == h.largest.user
  }

  lemma OlderFollows(v: Version, c: Compaction, h: File, g: File, x: Entry, y: Entry)
    requires VersionOK(v) && PickOK(v, c) && IsInput(c, h) && LeftBehind(v, c, g)
    requires x in h.entries && y in g.entries && x.key.user == y.key.user && Less(x.key, y.key)
    ensures Followed(v, c, h, x, g) && (h in c.inputs0 <==> g in v[c.level])
  {
    OlderLeftContinues(v, c, h, g, x, y);
  }

  /** A dropped deletion with nothing visible left behind: the reader finds nothing. */
  lemma DroppedRead(st: Store, c: Compaction, outputs: Level, st': Store, user: UserKey, s: nat, h: File, x: Entry)
    requires InstallStep(st, c, outputs, true, st') && NewestInStore(st, user, s, x)
    requires IsInput(c, h) && x in h.entries && DroppedAsDeletion(st, c, x)
    requires forall g :: !Followed(st.version, c, h, x, g)
    ensures NothingFound(st', user, s)
  {
    hide InstallStep, StoreOK, VersionOK, PickOK, GoodOutputs, Installed, OutputsKeep, Layered, NewestInStore;
    hide StoredFromHistory, Retained, SnapshotsOK, NoneIn, InInputs, IsInput, Continues, LeftBehind, DroppedAsDeletion;
    StepParts(st, c, outputs, true, st');
    InputKnown(st.version, c, h, x);
    MemInvisible(st, user, s, x);
    StaysFromHistory(st, c, outputs, true, st');
    forall l, f, e | 0 <= l < |st'.version| && f in st'.version[l] && e in f.entries && e.key.user == user
      ensures e.key.sequence > s
    {
      if e.key.sequence <= s {
        assert InFiles(st'.version[l], e) && InStore(st', e);
        NewestBounds(st, user, s, x, e);
        VisibleNowhere(st, c, outputs, st', user, s, h, x, l, f, e);
        assert false;
      }
    }
  }

  lemma VisibleNowhere(st: Store, c: Compaction, outputs: Level, st': Store, user: UserKey, s: nat, h: File, x: Entry,
                       l: nat, f: File, e: Entry)
    requires InstallStep(st, c, outputs, true, st') && NewestInStore(st, user, s, x)
    requires IsInput(c, h) && x in h.entries && DroppedAsDeletion(st, c, x)
    requires forall g :: !Followed(st.version, c, h, x, g)
    requires l < NUM_LEVELS == |st'.version| && f in st'.version[l] && e.key.user == user == x.key.user
    requires e.key.sequence <= x.key.sequence && e.key.sequence <= s
    ensures e !in f.entries
  {
    hide InstallStep, StoreOK, VersionOK, PickOK, GoodOutputs, Installed, OutputsKeep, Layered, NewestInStore, Less;
    hide StoredFromHistory, Retained, SnapshotsOK, NoneIn, InInputs, Continues, DroppedAsDeletion;
    StepParts(st, c, outputs, true, st');
    InputKnown(st.version, c, h, x);
    AfterwardsThere(st, c, outputs, true, st', l, f);
    if e in f.entries {
      if l == c.level + 1 && f in outputs {
        assert InFiles(outputs, e);
        DroppedOutputs(st, c, outputs, true, h, x, e);
      } else if l == c.level || l == c.level + 1 {
        LeftHere(st, c, l, f);
        SeqOrder(st, x, e, h, f, c);
        OlderFollows(st.version, c, h, f, x, e);
      } else if l < c.level {
        AboveInvisible(st, user, s, x, InputLevel(c, h), h, l, f, e);
      } else {
        BaseIs(st, c, x);
        BelowBaseLevel(st.version, c, outputs, l, f, e);
      }
    }
  }

  lemma LeftHere(st: Store, c: Compaction, l: nat, f: File)
    requires VersionOK(st.version) && PickOK(st.version, c) && l < NUM_LEVELS == |st.version| && f in st.version[l]
    requires (l == c.level && f !in c.inputs0) || (l == c.level + 1 && f !in c.inputs1)
    ensures LeftBehind(st.version, c, f) && !IsInput(c, f)
  {
    NotAnInput(st.version, c, l, f);
  }

  lemma BaseIs(st: Store, c: Compaction, x: Entry)
    requires DroppedAsDeletion(st, c, x)
    ensures IsBaseLevel(st.version, c.level, x.key.user) && x.key.kind == Deletion
  {
  }

  /** Nothing of the input's level that continues it means nothing visible of its key there. */
  lemma NothingLeft(st: Store, c: Compaction, user: UserKey, s: nat, h: File, x: Entry)
    requires StoreOK(st) && PickOK(st.version, c) && NewestInStore(st, user, s, x) && IsInput(c, h) && x in h.entries
    requires forall g :: Followed(st.version, c, h, x, g) ==> g !in st.version[c.level]
    ensures NoneLeft(st, c, user, s)
  {
    hide StoreOK, PickOK, NewestInStore, Continues, IsInput, LeftBehind, Less;
    StoredFacts(st);
    hide VersionOK;
    LevelInBounds(st.version, c);
    forall g, y | LeftInLevel(st.version, c, g) && y in g.entries && y.key.user == user ensures y.key.sequence > s {
      if y.key.sequence <= s {
        LeftInLevelStays(st.version, c, g);
        LeftStored(st, c, g, y);
        NewestBounds(st, user, s, x, y);
        SeqOrder(st, x, y, h, g, c);
        OlderFollows(st.version, c, h, g, x, y);
        assert false;
      }
    }
  }

  /** What one reader gets for one key. */
  lemma OneRead(st: Store, c: Compaction, outputs: Level, merge: bool, st': Store, user: UserKey, s: nat)
    requires InstallStep(st, c, outputs, merge, st') && Floor(st) <= s <= |st.history|
    ensures (exists h, g, x :: Exposed(st, c, merge, user, s, h, g, x)) ||
            StoreGet(st', user, s) == PlainGet(st.history, user, s)
  {
    hide InstallStep, StoreOK, VersionOK, PickOK, GoodOutputs, Installed, OutputsKeep, Layered, NewestInStore;
    hide StoredFromHistory, Retained, SnapshotsOK, InInputs, IsInput, Continues, LeftBehind, DroppedAsDeletion;
    hide HiddenInInputs, Answers, StoreGet, NoneLeft, Exposed;
    StepParts(st, c, outputs, merge, st');
    StaysFromHistory(st, c, outputs, merge, st');
    ReadGivesNewest(st, user, s);
    var e := NewestExists(st, user, s);
    match e
    case None =>
      NothingStored(st, user, s);
      NothingReads(st, user, s);
      StillNothing(st, st', user, s);
      NothingStored(st', user, s);
      NothingReads(st', user, s);
    case Some(x) =>
      NewestAnswers(st, user, s, x);
      ReadIs(st, user, s, x);
      if !InInputs(c, x) {
        OthersRead(st, c, outputs, merge, st', user, s, x);
        ReadIs(st', user, s, x);
      } else {
        var h := InputFileOf(st.version, c, x);
        InputRead(st, c, outputs, merge, st', user, s, h, x);
      }
  }

  lemma StillNothing(st: Store, st': Store, user: UserKey, s: nat)
    requires NothingVisible(st, user, s) && forall e :: InStore(st', e) ==> InStore(st, e)
    ensures NothingVisible(st', user, s)
  {
    hide InStore;
  }

  lemma InputRead(st: Store, c: Compaction, outputs: Level, merge: bool, st': Store, user: UserKey, s: nat, h: File, x: Entry)
    requires InstallStep(st, c, outputs, merge, st') && Floor(st) <= s
    requires NewestInStore(st, user, s, x) && IsInput(c, h) && x in h.entries
    ensures PickOK(st.version, c)
    ensures (exists g :: Exposed(st, c, merge, user, s, h, g, x)) || StoreGet(st', user, s) == ToOption(Answer(x))
  {
    hide InstallStep, StoreOK, VersionOK, PickOK, GoodOutputs, Installed, Layered, NewestInStore;
    hide StoredFromHistory, Retained, SnapshotsOK, InInputs, IsInput, Continues, LeftBehind, DroppedAsDeletion;
    hide HiddenInInputs, Answers, StoreGet, NoneLeft;
    StepParts(st, c, outputs, merge, st');
    StaysFromHistory(st, c, outputs, merge, st');
    InputKnown(st.version, c, h, x);
    NotHidden(st, c, user, s, x);
    NewestIsStored(st, user, s, x);
    hide Followed;
    if f :| Followed(st.version, c, h, x, f) && (f in st.version[c.level] || (merge && DroppedAsDeletion(st, c, x))) {
      var g := FirstFollowing(st, c, merge, user, s, h, x, f);
    } else {
      NothingLeft(st, c, user, s, h, x);
      if merge && DroppedAsDeletion(st, c, x) {
        DroppedRead(st, c, outputs, st', user, s, h, x);
        NothingReads(st', user, s);
        BaseIs(st, c, x);
      } else {
        assert InFiles(outputs, x);
        KeptRead(st, c, outputs, merge, st', user, s, h, x);
        ReadIs(st', user, s, x);
      }
    }
  }

  lemma FirstFollowing(st: Store, c: Compaction, merge: bool, user: UserKey, s: nat, h: File, x: Entry, f: File) returns (g: File)
    requires StoreOK(st) && PickOK(st.version, c) && IsInput(c, h) && x in h.entries && NewestInStore(st, user, s, x)
    requires Followed(st.version, c, h, x, f) && (f in st.version[c.level] || (merge && DroppedAsDeletion(st, c, x)))
    ensures Exposed(st, c, merge, user, s, h, g, x)
  {
    hide StoreOK, VersionOK, PickOK, LeftBehind, Continues, IsInput, DroppedAsDeletion, NextLeft, InStore;
    StoredFacts(st);
    var v, l := st.version, InputLevel(c, h);
    ContinuesInLevel(v, c, h, f);
    var i :| 0 <= i < |v[l]| && v[l][i] == f;
    g := NextExists(v, c, h, l, |v[l]|);
    NextFacts(v, c, h, g);
    ContinuesInLevel(v, c, h, g);
  }

  /** What some reader sees first is hidden by no other input. */
  lemma NotHidden(st: Store, c: Compaction, user: UserKey, s: nat, x: Entry)
    requires PickOK(st.version, c) && NewestInStore(st, user, s, x) && Floor(st) <= s
    ensures !HiddenInInputs(st, c, x)
  {
    hide PickOK, InInputs, Floor, InStore;
    forall z | InInputs(c, z) && z.key.user == x.key.user && z.key.sequence <= Floor(st)
      ensures z.key.sequence <= x.key.sequence
    {
      var f := InputFileOf(st.version, c, z);
      assert InStore(st, z) by { InFilesStored(st, z); }
    }
  }

  lemma InFilesStored(st: Store, z: Entry)
    requires InVersion(st.version, z)
    ensures InStore(st, z)
  {
  }

  /** A reader who will get another entry gets that entry's answer. */
  lemma ExposedGets(st: Store, c: Compaction, outputs: Level, merge: bool, st': Store,
                    user: UserKey, s: nat, h: File, g: File, x: Entry)
    requires InstallStep(st, c, outputs, merge, st') && Floor(st) <= s <= |st.history|
    requires PickOK(st.version, c) && Exposed(st, c, merge, user, s, h, g, x)
    ensures StoreGet(st', user, s) == FirstOf(g) && PlainGet(st.history, user, s) == ToOption(Answer(x))
  {
    hide InstallStep, StoreOK, VersionOK, PickOK, GoodOutputs, Installed, OutputsKeep, Layered, NewestInStore;
    hide StoredFromHistory, Retained, SnapshotsOK, Answers, StoreGet, IsInput, NextLeft, DroppedAsDeletion;
    StepParts(st, c, outputs, merge, st');
    StaysFromHistory(st, c, outputs, merge, st');
    ExposedRead(st, c, outputs, merge, st', user, s, h, g, x);
    ReadIs(st', user, s, g.entries[0]);
    ReadGivesNewest(st, user, s);
    NewestAnswers(st, user, s, x);
    ReadIs(st, user, s, x);
  }

  /** After an installation every reader gets the newest write if and only if every reader who will get
      another entry gets the same answer from it: a check on the state before. */
  lemma InstallReadsExact(st: Store, c: Compaction, outputs: Level, merge: bool, st': Store)
    requires InstallStep(st, c, outputs, merge, st')
    ensures PickOK(st.version, c) && (ReadsRight(st') <==> ReadsKeep(st, c, merge))
  {
    hide InstallStep, StoreOK, VersionOK, PickOK, GoodOutputs, Installed, OutputsKeep, Layered, StoredFromHistory;
    hide Retained, SnapshotsOK, StoreGet, Exposed;
    StepParts(st, c, outputs, merge, st');
    if ReadsKeep(st, c, merge) {
      forall user: UserKey, s: nat | Reader(st', s) && s <= |st'.history|
        ensures StoreGet(st', user, s) == PlainGet(st'.history, user, s)
      {
        ReaderInRange(st, s);
        OneRead(st, c, outputs, merge, st', user, s);
        if h, g, x :| Exposed(st, c, merge, user, s, h, g, x) {
          ExposedGets(st, c, outputs, merge, st', user, s, h, g, x);
        }
      }
    }
    if ReadsRight(st') {
      forall user: UserKey, s: nat, h: File, g: File, x: Entry | Reader(st, s) && Exposed(st, c, merge, user, s, h, g, x)
        ensures ToOption(Answer(x)) == FirstOf(g)
      {
        ReaderInRange(st, s);
        ExposedGets(st, c, outputs, merge, st', user, s, h, g, x);
        assert Reader(st', s);
      }
    }
  }

  /** For merging compactions. */
  lemma CompactReadsExact(st: Store, c: Compaction, manual: bool, sizes: TableSizes, stream: Run, outputs: Level, st': Store)
    requires StoreOK(st) && Step(st, Compact(c, manual, sizes, stream, outputs), st')
    ensures PickOK(st.version, c) && (ReadsRight(st') <==> ReadsKeep(st, c, true))
  {
    hide StoreOK, CompactionOutputs, PickOK, Applied, HasGrandparents, IsTrivialMove, ReadsKeep, ReadsRight;
    StoredFacts(st);
    hide VersionOK;
    EditInstalls(st.version, c, outputs, st'.version);
    CompactOutputsGood(st, c, sizes, stream, outputs);
    assert OutputsKeep(st, c, outputs, true) by {
      forall x ensures InFiles(outputs, x) <==> InInputs(c, x) && !(DroppedAsDeletion(st, c, x) || HiddenInInputs(st, c, x)) {
        OutputsHold(st, c, sizes, stream, outputs, x);
      }
    }
    InstallReadsExact(st, c, outputs, true, st');
  }

  /** For trivial moves. */
  lemma MoveReadsExact(st: Store, c: Compaction, st': Store)
    requires StoreOK(st) && Step(st, Move(c), st')
    ensures PickOK(st.version, c) && (ReadsRight(st') <==> ReadsKeep(st, c, false))
  {
    hide StoreOK, PickOK, Applied, HasGrandparents, ReadsKeep, ReadsRight;
    StoredFacts(st);
    hide VersionOK;
    assert c.inputs1 == [];
    EditInstalls(st.version, c, c.inputs0, st'.version);
    MoveOutputsGood(st.version, c);
    assert OutputsKeep(st, c, c.inputs0, false);
    InstallReadsExact(st, c, c.inputs0, false, st');
  }

  // ---------------------------------------------------------------- reading any installed state

  /** What a read needs to find its way: each place is sorted, whatever their order in time. */
  ghost predicate Readable(st: Store) {
    LevelsOK(st.version) && Sorted(st.mem) && Sorted(ImmRun(st)) && StoredFromHistory(st)
  }

  lemma OKIsReadable(st: Store)
    requires StoreOK(st)
    ensures Readable(st)
  {
  }

  /** Every installation leaves a readable state. */
  lemma InstallReadable(st: Store, c: Compaction, outputs: Level, merge: bool, st': Store)
    requires InstallStep(st, c, outputs, merge, st')
    ensures Readable(st')
  {
    hide InstallStep, StoreOK, VersionOK, PickOK, GoodOutputs, Installed, OutputsKeep, StoredFromHistory, LevelSorted;
    hide Retained, SnapshotsOK, LevelDisjoint, AllWellFormed, DistinctNumbers;
    StepParts(st, c, outputs, merge, st');
    StaysFromHistory(st, c, outputs, merge, st');
    assert forall l :: 0 <= l < NUM_LEVELS ==> LevelSorted(st'.version[l]) by { LevelsSorted(st.version, c, outputs, st'.version); }
    forall l | 0 <= l < NUM_LEVELS
      ensures AllWellFormed(st'.version[l]) && DistinctNumbers(st'.version[l]) && (l > 0 ==> LevelDisjoint(st'.version[l]))
    {
      LevelsStayDisjoint(st.version, c, outputs, st'.version, l);
    }
    FirstLevelByNumber(st.version, c, outputs, st'.version);
  }

  lemma LevelsSorted(v: Version, c: Compaction, outputs: Level, v': Version)
    requires PickOK(v, c) && Installed(v, c, outputs, v')
    ensures |v'| == NUM_LEVELS && forall l :: 0 <= l < NUM_LEVELS ==> LevelSorted(v'[l])
  {
  }

  lemma FirstLevelByNumber(v: Version, c: Compaction, outputs: Level, v': Version)
    requires VersionOK(v) && PickOK(v, c) && Installed(v, c, outputs, v')
    ensures |v'| == NUM_LEVELS && NewerByNumber(v'[0])
  {
    assert NewerByNumber(v[0]);
    assert forall f :: f in v'[0] ==> AfterInstall(v, c, outputs, 0, f);
  }

  lemma MemReads(st: Store, user: UserKey, s: nat)
    requires Readable(st)
    ensures RunGet(st.mem, user, s) == NotFound ==> NoneIn(st.mem, user, s)
    ensures RunGet(st.mem, user, s) != NotFound ==> StoreGet(st, user, s) == ToOption(RunGet(st.mem, user, s))
  {
    RunGetFindsNewest(st.mem, user, s);
    if RunGet(st.mem, user, s) != NotFound {
      var e := st.mem[LowerBound(st.mem, SeekKey(user, s))];
      assert Answers(st, user, s, e);
      ReadIs(st, user, s, e);
    }
  }

  lemma ImmReads(st: Store, user: UserKey, s: nat)
    requires Readable(st) && NoneIn(st.mem, user, s)
    ensures RunGet(ImmRun(st), user, s) == NotFound ==> NoneIn(ImmRun(st), user, s)
    ensures RunGet(ImmRun(st), user, s) != NotFound ==> StoreGet(st, user, s) == ToOption(RunGet(ImmRun(st), user, s))
  {
    var run := ImmRun(st);
    RunGetFindsNewest(run, user, s);
    if RunGet(run, user, s) != NotFound {
      var e := run[LowerBound(run, SeekKey(user, s))];
      assert Answers(st, user, s, e);
      ReadIs(st, user, s, e);
    }
  }

  lemma VersionReads(st: Store, user: UserKey, s: nat, r: Lookup, e: Option<Entry>)
    requires Readable(st) && NoneIn(st.mem, user, s) && NoneIn(ImmRun(st), user, s)
    requires r == NotFound ==> forall l :: 0 <= l < NUM_LEVELS ==> NoneVisible(st.version[l], user, s)
    requires r != NotFound ==> e.Some? && FirstAnswer(st.version, user, s, e.value) && r == Answer(e.value)
    ensures StoreGet(st, user, s) == ToOption(r)
  {
    if r == NotFound { NothingReads(st, user, s); }
    else { ReadIs(st, user, s, e.value); }
  }

  /** What a compaction or move does to readers, and that the state stays readable. */
  lemma CompactionReads(st: Store, a: Action, st': Store)
    requires StoreOK(st) && Step(st, a, st') && (a.Compact? || a.Move?)
    ensures PickOK(st.version, a.c) && (ReadsRight(st') <==> ReadsKeep(st, a.c, a.Compact?)) && Readable(st')
  {
    hide StoreOK, CompactionOutputs, PickOK, Applied, HasGrandparents, ReadsKeep, ReadsRight, Readable;
    StoredFacts(st);
    hide VersionOK;
    match a
    case Compact(c, manual, sizes, stream, outputs) =>
      CompactReadsExact(st, c, manual, sizes, stream, outputs, st');
      EditInstalls(st.version, c, outputs, st'.version);
      CompactOutputsGood(st, c, sizes, stream, outputs);
      forall x ensures InFiles(outputs, x) <==> InInputs(c, x) && !(DroppedAsDeletion(st, c, x) || HiddenInInputs(st, c, x)) {
        OutputsHold(st, c, sizes, stream, outputs, x);
      }
      InstallReadable(st, c, outputs, true, st');
    case Move(c) =>
      MoveReadsExact(st, c, st');
      assert c.inputs1 == [];
      EditInstalls(st.version, c, c.inputs0, st'.version);
      MoveOutputsGood(st.version, c);
      InstallReadable(st, c, c.inputs0, false, st');
  }

  /** A snapshot's reads never change: while it stays live, over any steps whose compactions and moves are
      harmless, a read at it returns what it returned when the snapshot was first there. */
  lemma SnapshotGetIsStable(states: seq<Store>, actions: seq<Action>, i: nat, j: nat, s: nat, user: UserKey)
    requires IsRun(states, actions) && RunActionsOK(states, actions) && LiveSince(states, i, j, s)
    ensures StoreGet(states[j], user, s) == StoreGet(states[i], user, s)
    ensures s <= |states[i].history| && StoreGet(states[i], user, s) == PlainGet(states[i].history, user, s)
  {
    hide StoreOK, StoreGet, IsRun, RunActionsOK;
    RunKeepsInvariant(states, actions, i);
    RunKeepsInvariant(states, actions, j);
    StoredFacts(states[i]);
    StoredFacts(states[j]);
    LiveAboveFloor(states[i], s);
    LiveAboveFloor(states[j], s);
    HistoryGrows(states, actions, i, j);
    PlainGetOfPrefix(states[i].history, states[j].history, user, s);
    ReadGivesNewest(states[i], user, s);
    ReadGivesNewest(states[j], user, s);
  }
}
