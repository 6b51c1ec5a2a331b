// Whole runs of the storage engine: writes, snapshots, memtable switches, flushes, trivial moves and
// merging compactions (db/db_impl.cc over db/version_set.cc).

module LsmRun {
  import opened DbFormat
  import opened Meaning
  import opened Versions
  import opened VersionGet
  import opened DropRule
  import opened CompactionRun
  import opened CompactionMeaning
  import opened OverlappingInputs
  import opened PickCompaction
  import opened FlushLevel
  import opened CompactionWindow
  import opened Runs

  /** What readers and the background thread work on, and ghost of it: everything ever written.
      snapshots is the SnapshotList, merging the compaction under way. */
  datatype Db = Db(mem: seq<Entry>, imm: seq<Entry>, version: Version, written: set<Entry>,
                   snapshots: seq<SequenceNumber>, last: SequenceNumber, merging: Option<Merge>, maxFileSize: nat)

  ghost function Stored(db: Db): set<Entry> {
    EntrySet(db.mem) + (EntrySet(db.imm) + AllEntries(db.version))
  }

  /** smallest_snapshot: the oldest one held, or LastSequence. */
  function SmallestSnapshot(db: Db): SequenceNumber {
    if db.snapshots == [] then db.last else db.snapshots[0]
  }

  ghost predicate MemGood(db: Db) {
    && Sorted(db.mem) && Sorted(db.imm)
    && DistinctSequences(db.written) && Stored(db) <= db.written
    && AllNewer(EntrySet(db.mem), EntrySet(db.imm) + AllEntries(db.version))
    && AllNewer(EntrySet(db.imm), AllEntries(db.version))
    && forall e :: e in db.written ==> e.key.sequence <= db.last
  }

  /** oldest() is the minimum, and no snapshot is of the future. */
  ghost predicate SnapshotsGood(db: Db) {
    (forall i, j :: 0 <= i < j < |db.snapshots| ==> db.snapshots[i] <= db.snapshots[j])
    && forall s :: s in db.snapshots ==> s <= db.last
  }

  ghost predicate MergeGood(db: Db) {
    db.merging.Some? ==> StillFits(db.version, db.merging.value) && db.merging.value.snapshot <= SmallestSnapshot(db)
  }

  ghost predicate Inv(db: Db) {
    && GoodVersion(db.version) && MemGood(db) && SnapshotsGood(db) && MergeGood(db)
    && SameAnswers(Stored(db), db.written, SmallestSnapshot(db))
  }

  ghost predicate Init(db: Db) {
    && db.mem == [] && db.imm == [] && db.written == {} && db.version == seq(NUM_LEVELS, _ => [])
    && db.snapshots == [] && db.merging == None
  }

  /** A write group: new sequence numbers, inserted into the memtable. */
  ghost predicate Write(db: Db, next: Db, batch: set<Entry>) {
    && DistinctSequences(batch) && (forall e :: e in batch ==> db.last < e.key.sequence <= next.last)
      && db.last <= next.last
    && Sorted(next.mem) && EntrySet(next.mem) == EntrySet(db.mem) + batch
    && next == db.(mem := next.mem, written := db.written + batch, last := next.last)
  }

  /** MakeRoomForWrite: the full memtable becomes the immutable one. */
  ghost predicate SwitchMemTable(db: Db, next: Db) {
    db.imm == [] && next == db.(mem := [], imm := db.mem)
  }

  /** GetSnapshot: SnapshotList::New at the end of the list. */
  ghost predicate TakeSnapshot(db: Db, next: Db) {
    next == db.(snapshots := db.snapshots + [db.last])
  }

  /** ReleaseSnapshot: SnapshotList::Delete. */
  ghost predicate ReleaseSnapshot(db: Db, next: Db, i: nat) {
    i < |db.snapshots| && next == db.(snapshots := db.snapshots[..i] + db.snapshots[i + 1..])
  }

  /** CompactMemTable, on its own or within a compaction: the immutable memtable becomes a table file. */
  ghost predicate Flush(db: Db, next: Db, level: nat, f: File) {
    && ValidFile(f) && f.entries == db.imm && (forall g :: g in db.version[0] ==> g.number < f.number)
    && IsPickedLevel(db.version, f.smallest.user, f.largest.user, db.maxFileSize, level)
      && Flushed(db.version, level, f, next.version)
    && next == db.(imm := [], version := next.version)
  }

  /** An automatic pick that is handed to the next level as it is. */
  ghost predicate Move(db: Db, next: Db, level: nat, f: File) {
    && db.merging == None && level + 1 < NUM_LEVELS
    && (exists file, c :: AutoPick(db.version, db.maxFileSize, level, file, c) && IsTrivialMove(db.maxFileSize, c)
                          && c.inputs0 == [f])
    && Installed(db.version, level, {f}, {}, {f}, next.version)
    && next == db.(version := next.version)
  }

  /** The merge that carries out a pick. */
  ghost predicate Carries(db: Db, pick: Pick, c: Merge) {
    && c.base == db.version && c.level == pick.level && c.in0 == FilesOf(pick.inputs0) && c.in1 == FilesOf(pick.inputs1)
    && (exists s, l :: IsHull(pick.inputs0, s, l) && c.low == s.user && c.high == l.user)
    && IsMerge(c.input, c.in0 + c.in1) && c.snapshot == SmallestSnapshot(db)
  }

  ghost predicate StartAutomatic(db: Db, next: Db, c: Merge) {
    && db.merging == None && next == db.(merging := Some(c))
    && exists file, pick :: AutoPick(db.version, db.maxFileSize, c.level, file, pick)
                            && !IsTrivialMove(db.maxFileSize, pick) && Carries(db, pick, c)
  }

  ghost predicate StartManual(db: Db, next: Db, c: Merge) {
    && db.merging == None && next == db.(merging := Some(c))
    && exists request, pick :: ManualPick(db.version, db.maxFileSize, c.level, request, pick) && Carries(db, pick, c)
  }

  /** InstallCompactionResults: what DoCompactionWork wrote replaces the inputs in the current version. */
  ghost predicate Install(db: Db, next: Db, outputs: seq<File>, numbers: nat -> nat) {
    && db.merging.Some? && db.merging.value.level + 1 < NUM_LEVELS && Merged(db.merging.value, outputs, numbers)
    && Installed(db.version, db.merging.value.level, db.merging.value.in0, db.merging.value.in1, FilesOf(outputs),
                 next.version)
    && next == db.(version := next.version, merging := None)
  }

  ghost predicate Abandon(db: Db, next: Db) {
    next == db.(merging := None)
  }

  ghost predicate MemStep(db: Db, next: Db) {
    || (exists batch: set<Entry> :: Write(db, next, batch)) || SwitchMemTable(db, next)
    || TakeSnapshot(db, next) || (exists i :: ReleaseSnapshot(db, next, i))
  }

  ghost predicate MergeStep(db: Db, next: Db) {
    || (exists c :: StartAutomatic(db, next, c) || StartManual(db, next, c))
    || (exists outputs, numbers :: Install(db, next, outputs, numbers)) || Abandon(db, next)
  }

  ghost predicate Step(db: Db, next: Db) {
    || MemStep(db, next) || (exists level, f :: Flush(db, next, level, f))
    || (exists level, f :: Move(db, next, level, f)) || MergeStep(db, next)
  }

  /** What can be told before each step: a file that is moved leaves no boundary file behind; a merge that
      starts takes nothing newer below what stays and uncovers no value; and a table that is flushed while
      it is under way has all that the merge keeps on one side, if it lands at the level of the outputs. */
  ghost predicate Careful(db: Db, next: Db) {
    && (forall level, f :: Move(db, next, level, f) ==> LeavesNoBoundary(db.version, level, f))
    && (db.merging == None && next.merging.Some? ==> IsSafe(next.merging.value))
    && (db.merging.Some? && db.merging == next.merging ==> KeepsOut(db.version, next.version, next.merging.value))
  }

  ghost predicate LeavesNoBoundary(v: Version, level: nat, f: File)
    requires level < NUM_LEVELS
  {
    !exists g :: IsBoundaryFile(v, level, f, g)
  }

  ghost predicate KeepsOut(v: Version, w: Version, c: Merge) {
    c.level + 1 < NUM_LEVELS ==> forall f :: f in w[c.level + 1] && f !in v[c.level + 1] ==> Aside(KeptOf(c), f)
  }

  lemma PickIsStarted(db: Db, pick: Pick, c: Merge, s: InternalKey, l: InternalKey)
    requires Carries(db, pick, c) && IsSound(db.version, pick, s, l)
    ensures Started(c)
  {
    var s', l' :| IsHull(pick.inputs0, s', l') && c.low == s'.user && c.high == l'.user;
    HullEnds(pick.inputs0, s, l, s', l');
  }

  lemma StartIsStarted(db: Db, next: Db, c: Merge)
    requires WellFormed(db.version) && (StartAutomatic(db, next, c) || StartManual(db, next, c))
    ensures Started(c) && c.base == db.version && c.snapshot == SmallestSnapshot(db)
  {
    if StartAutomatic(db, next, c) {
      var file, pick :| AutoPick(db.version, db.maxFileSize, c.level, file, pick)
        && !IsTrivialMove(db.maxFileSize, pick) && Carries(db, pick, c);
      var s, l := AutoPickHasNoGap(db.version, db.maxFileSize, c.level, file, pick);
      PickIsStarted(db, pick, c, s, l);
    } else {
      var request, pick :| ManualPick(db.version, db.maxFileSize, c.level, request, pick) && Carries(db, pick, c);
      var s, l := ManualPickIsSound(db.version, db.maxFileSize, c.level, request, pick);
      PickIsStarted(db, pick, c, s, l);
    }
  }

  lemma LaterAnswers(a: set<Entry>, b: set<Entry>, early: nat, late: nat)
    requires SameAnswers(a, b, early) && early <= late
    ensures SameAnswers(a, b, late)
  {
  }

  /** Newer entries on top of two collections that answer alike. */
  lemma AnswersUnder(upper: set<Entry>, a: set<Entry>, b: set<Entry>, snapshot: nat)
    requires DistinctSequences(upper + a) && DistinctSequences(upper + b) && AllNewer(upper, a) && AllNewer(upper, b)
    requires SameAnswers(a, b, snapshot)
    ensures SameAnswers(upper + a, upper + b, snapshot)
  {
    forall user, s: nat | snapshot <= s ensures Visible(upper + a, user, s) == Visible(upper + b, user, s) {
      SameUnder(upper, a, b, user, s);
    }
  }

  lemma WriteStep(db: Db, next: Db, batch: set<Entry>)
    requires Inv(db) && Write(db, next, batch)
    ensures Inv(next)
  {
    assert Stored(next) == batch + Stored(db);
    assert next.written == batch + db.written;
    assert DistinctSequences(next.written);
    AnswersUnder(batch, Stored(db), db.written, SmallestSnapshot(db));
    LaterAnswers(Stored(next), next.written, SmallestSnapshot(db), SmallestSnapshot(next));
  }

  lemma SwitchStep(db: Db, next: Db)
    requires Inv(db) && SwitchMemTable(db, next)
    ensures Inv(next)
  {
    assert Stored(next) == Stored(db);
  }

  lemma SnapshotStep(db: Db, next: Db)
    requires Inv(db) && (TakeSnapshot(db, next) || exists i :: ReleaseSnapshot(db, next, i))
    ensures Inv(next)
  {
    assert Stored(next) == Stored(db);
    assert SnapshotsGood(next) && SmallestSnapshot(db) <= SmallestSnapshot(next) by {
      OldestOnlyGrows(db, next);
    }
    LaterAnswers(Stored(next), next.written, SmallestSnapshot(db), SmallestSnapshot(next));
  }

  /** New snapshots go to the end; so the oldest one, and what may be dropped, only grows. */
  lemma OldestOnlyGrows(db: Db, next: Db)
    requires SnapshotsGood(db) && (TakeSnapshot(db, next) || exists i :: ReleaseSnapshot(db, next, i))
    ensures SnapshotsGood(next) && SmallestSnapshot(db) <= SmallestSnapshot(next)
  {
    if i :| ReleaseSnapshot(db, next, i) {
      WithoutOne(db.snapshots, i, db.last);
    } else {
      assert forall i :: 0 <= i < |db.snapshots| ==> db.snapshots[i] in db.snapshots;
    }
  }

  lemma WithoutOne(list: seq<SequenceNumber>, i: nat, last: SequenceNumber)
    requires i < |list| && (forall j, k :: 0 <= j < k < |list| ==> list[j] <= list[k])
      && forall s :: s in list ==> s <= last
    ensures var rest := list[..i] + list[i + 1..];
      && (forall j, k :: 0 <= j < k < |rest| ==> rest[j] <= rest[k]) && (forall s :: s in rest ==> s <= last)
      && list[0] <= if rest == [] then last else rest[0]
  {
    var rest := list[..i] + list[i + 1..];
    assert list[0] in list;
    forall s | s in rest ensures s in list {
    }
    assert rest != [] ==> rest[0] == list[if 0 < i then 0 else 1];
    forall j, k | 0 <= j < k < |rest| ensures rest[j] <= rest[k] {
      assert rest[j] == list[if j < i then j else j + 1] && rest[k] == list[if k < i then k else k + 1];
    }
  }

  lemma FlushedFits(db: Db, next: Db, level: nat, f: File)
    requires MemGood(db) && Flush(db, next, level, f)
    ensures Fits(db.version, level, f)
  {
    forall l, g | 0 <= l < NUM_LEVELS && g in db.version[l] ensures NewerThan(f, g) {
      forall d, e | d in f.entries && e in g.entries ensures d.key.sequence > e.key.sequence {
        assert d in EntrySet(db.imm) && e in AllEntries(db.version);
      }
    }
  }

  lemma FlushStep(db: Db, next: Db, level: nat, f: File)
    requires Inv(db) && Flush(db, next, level, f) && Careful(db, next)
    ensures Inv(next)
  {
    FlushedFits(db, next, level, f);
    FlushKeepsInvariants(db.version, level, f, next.version);
    FileInFlushed(db.version, level, f, next.version);
    assert AllEntries(next.version) == AllEntries(db.version) + EntrySet(db.imm);
    assert Stored(next) == Stored(db);
    if db.merging.Some? {
      FlushDuringMerge(db, next, level, f);
    }
  }

  lemma FlushDuringMerge(db: Db, next: Db, level: nat, f: File)
    requires MergeGood(db) && db.merging.Some? && Careful(db, next)
    requires Flush(db, next, level, f) && Fits(db.version, level, f)
    ensures MergeGood(next)
  {
    var c := db.merging.value;
    FlushedIsNew(db.version, c, level, f);
    assert f in FilesOf(next.version[level]);
    FlushKeepsFit(db.version, c, level, f, next.version);
  }

  lemma MoveStep(db: Db, next: Db, level: nat, f: File)
    requires Inv(db) && Move(db, next, level, f) && LeavesNoBoundary(db.version, level, f)
    ensures Inv(next)
  {
    MovedIsClosed(db, next, level, f);
    StoredIsDistinct(db);
    TrivialMove(db.version, level, f, next.version);
    SameEntriesKeep(db, next);
  }

  /** Another good version with the same entries, and no merge under way. */
  lemma SameEntriesKeep(db: Db, next: Db)
    requires Inv(db) && GoodVersion(next.version) && AllEntries(next.version) == AllEntries(db.version)
    requires next == db.(version := next.version) && db.merging == None
    ensures Inv(next)
  {
    assert Stored(next) == Stored(db);
  }

  lemma MovedIsClosed(db: Db, next: Db, level: nat, f: File)
    requires WellFormed(db.version) && Move(db, next, level, f)
    ensures f in db.version[level] && ClosedPick(db.version, level, {f}, {}, f.smallest.user, f.largest.user)
  {
    var file, c :| AutoPick(db.version, db.maxFileSize, level, file, c) && IsTrivialMove(db.maxFileSize, c)
      && c.inputs0 == [f];
    var s, l := AutoPickHasNoGap(db.version, db.maxFileSize, level, file, c);
    MovePickIsClosed(db.version, level, f, c, s, l);
  }

  lemma MovePickIsClosed(v: Version, level: nat, f: File, c: Pick, s: InternalKey, l: InternalKey)
    requires IsSound(v, c, s, l) && c.level == level && c.inputs0 == [f] && c.inputs1 == []
    ensures f in v[level] && ClosedPick(v, level, {f}, {}, f.smallest.user, f.largest.user)
  {
    assert FilesOf([f]) == {f} && FilesOf([]) == {};
    assert f in FilesOf(v[level]);
  }

  lemma StoredIsDistinct(db: Db)
    requires MemGood(db)
    ensures DistinctSequences(AllEntries(db.version))
  {
    assert AllEntries(db.version) <= Stored(db);
  }

  lemma InstallStep(db: Db, next: Db, outputs: seq<File>, numbers: nat -> nat)
    requires Inv(db) && Install(db, next, outputs, numbers)
    ensures Inv(next)
  {
    var c, upper := db.merging.value, EntrySet(db.mem) + EntrySet(db.imm);
    StoredIsDistinct(db);
    FittingInstall(db.version, c, outputs, numbers, next.version);
    LaterAnswers(AllEntries(next.version), AllEntries(db.version), c.snapshot, SmallestSnapshot(db));
    assert Stored(db) == upper + AllEntries(db.version) && Stored(next) == upper + AllEntries(next.version);
    AnswersUnder(upper, AllEntries(next.version), AllEntries(db.version), SmallestSnapshot(db));
  }

  lemma StepKeepsInv(db: Db, next: Db)
    requires Inv(db) && Step(db, next) && Careful(db, next)
    ensures Inv(next)
  {
    if batch: set<Entry> :| Write(db, next, batch) {
      WriteStep(db, next, batch);
    } else if SwitchMemTable(db, next) {
      SwitchStep(db, next);
    } else if TakeSnapshot(db, next) || exists i :: ReleaseSnapshot(db, next, i) {
      SnapshotStep(db, next);
    } else if level, f :| Flush(db, next, level, f) {
      FlushStep(db, next, level, f);
    } else if level, f :| Move(db, next, level, f) {
      MoveStep(db, next, level, f);
    } else {
      MergeStepKeeps(db, next);
    }
  }

  lemma MergeStepKeeps(db: Db, next: Db)
    requires Inv(db) && MergeStep(db, next) && Careful(db, next)
    ensures Inv(next)
  {
    if outputs, numbers :| Install(db, next, outputs, numbers) {
      InstallStep(db, next, outputs, numbers);
    } else if c :| StartAutomatic(db, next, c) || StartManual(db, next, c) {
      StartIsStarted(db, next, c);
      StartFits(c);
      MergingKeeps(db, next);
    } else {
      MergingKeeps(db, next);
    }
  }

  lemma MergingKeeps(db: Db, next: Db)
    requires Inv(db) && next == db.(merging := next.merging) && MergeGood(next)
    ensures Inv(next)
  {
    assert Stored(next) == Stored(db);
  }

  ghost function NextStep(): (Db, Db) -> bool {
    (db, next) => Step(db, next)
  }

  ghost predicate Run(states: seq<Db>) {
    IsRun(NextStep(), states) && Init(states[0])
  }

  /** A run whose every step is careful. */
  ghost function NextCarefulStep(): (Db, Db) -> bool {
    (db, next) => Step(db, next) && Careful(db, next)
  }

  /** In every run whose every step is careful, each state keeps its levels disjoint and in age order, and
      stores what answers like everything ever written, at every snapshot held. */
  lemma RunKeepsInv(states: seq<Db>, i: nat)
    requires Run(states) && i < |states| && forall k :: 0 < k < |states| ==> Careful(states[k - 1], states[k])
    ensures Inv(states[i])
  {
    InitIsGood(states[0]);
    assert IsRun(NextCarefulStep(), states);
    forall db, next | Inv(db) && NextCarefulStep()(db, next) ensures Inv(next) {
      StepKeepsInv(db, next);
    }
    KeptByRun(NextCarefulStep(), db => Inv(db), states, i);
  }

  lemma InitIsGood(db: Db)
    requires Init(db)
    ensures Inv(db)
  {
    assert Stored(db) == {};
  }

  /** DBImpl::Get: memtable, then immutable memtable, then the version. */
  method Get(db: Db, user: UserKey, snapshot: SequenceNumber) returns (value: Option<string>)
    requires Inv(db) && SmallestSnapshot(db) <= snapshot
    ensures value == Visible(db.written, user, snapshot)
  {
    ghost var lower := EntrySet(db.imm) + AllEntries(db.version);
    StoredIsDistinct(db);
    VisibleOfUnion(EntrySet(db.mem), lower, user, snapshot);
    VisibleOfUnion(EntrySet(db.imm), AllEntries(db.version), user, snapshot);
    assert Visible(Stored(db), user, snapshot) == Visible(db.written, user, snapshot);
    var hit := SavedEntry(db.mem, SeekKey(user, snapshot));
    SavedEntryIsNewest(db.mem, user, snapshot);
    if hit.None? {
      hit := SavedEntry(db.imm, SeekKey(user, snapshot));
      SavedEntryIsNewest(db.imm, user, snapshot);
      if hit.None? {
        value := VersionGet.Get(db.version, user, snapshot);
        return;
      }
      VisibleIsNewest(EntrySet(db.imm), user, snapshot, hit.value);
    } else {
      VisibleIsNewest(EntrySet(db.mem), user, snapshot, hit.value);
    }
    value := Shown(hit.value);
  }
}
