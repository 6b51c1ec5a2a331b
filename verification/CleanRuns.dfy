// Runs in which no user key is ever spread over two files of a level: there every pick is safe.

module CleanRuns {
  import opened DbFormat
  import opened Meaning
  import opened Versions
  import opened CompactionRun
  import opened CompactionMeaning
  import opened OverlappingInputs
  import opened PickCompaction
  import opened FlushLevel
  import opened CompactionWindow
  import opened LsmRun
  import opened Runs

  ghost predicate CleanInv(db: Db) {
    Inv(db) && CleanLevels(db.version) && (db.merging.Some? ==> InputsAlone(db.version, db.merging.value))
  }

  ghost predicate InputsAlone(v: Version, c: Merge) {
    InputsThere(v, c) && KeysAside(v, c.level, c.in1, c.input)
  }

  /** A merge started with no held snapshot older than an entry of its inputs, or its outputs happen to
      split no user key; and flushes stay out of what it keeps. */
  ghost predicate SplitsNoKey(db: Db, next: Db) {
    && (db.merging.Some? && next.merging == None ==> NothingNewer(db.merging.value) || CleanLevels(next.version))
    && (db.merging.Some? && db.merging == next.merging ==> KeepsOut(db.version, next.version, next.merging.value))
  }

  lemma MoveIsCareful(db: Db, next: Db, level: nat, f: File)
    requires Inv(db) && CleanLevels(db.version) && Move(db, next, level, f)
    ensures LeavesNoBoundary(db.version, level, f) && CleanLevels(next.version)
  {
    MovedIsClosed(db, next, level, f);
    StoredIsDistinct(db);
    TrivialMove(db.version, level, f, next.version);
    forall g | g in db.version[level] && g != f ensures !IsBoundaryFile(db.version, level, f, g) {
      CleanHasNoBoundary(db.version, level, f, g);
    }
  }

  lemma StartIsCareful(db: Db, next: Db, c: Merge)
    requires Inv(db) && CleanLevels(db.version) && (StartAutomatic(db, next, c) || StartManual(db, next, c))
    ensures IsSafe(c) && InputsAlone(next.version, c)
  {
    StartIsStarted(db, next, c);
    CleanIsSafe(c);
    CleanKeysAside(db.version, c.level, c.in0, c.in1, c.low, c.high, c.input);
  }

  /** Only a start makes a merge out of none. */
  lemma StartedBy(db: Db, next: Db)
    requires Step(db, next) && db.merging == None && next.merging.Some?
    ensures StartAutomatic(db, next, next.merging.value) || StartManual(db, next, next.merging.value)
  {
    if c :| StartAutomatic(db, next, c) || StartManual(db, next, c) {
      assert next.merging == Some(c);
    }
  }

  lemma CleanIsCareful(db: Db, next: Db)
    requires CleanInv(db) && Step(db, next) && SplitsNoKey(db, next)
    ensures Careful(db, next)
  {
    forall level, f | Move(db, next, level, f) ensures LeavesNoBoundary(db.version, level, f) {
      MoveIsCareful(db, next, level, f);
    }
    if db.merging == None && next.merging.Some? {
      StartedBy(db, next);
      StartIsCareful(db, next, next.merging.value);
    }
  }

  lemma FlushKeepsClean(db: Db, next: Db, level: nat, f: File)
    requires CleanInv(db) && Flush(db, next, level, f) && Inv(next)
    ensures CleanInv(next)
  {
    FlushedFits(db, next, level, f);
    FlushKeepsInvariants(db.version, level, f, next.version);
    if db.merging.Some? {
      FlushKeepsKeysAside(db.version, db.merging.value, level, f, next.version);
    }
  }

  lemma StepKeepsClean(db: Db, next: Db)
    requires CleanInv(db) && Step(db, next) && SplitsNoKey(db, next)
    ensures CleanInv(next)
  {
    CleanIsCareful(db, next);
    StepKeepsInv(db, next);
    if level, f :| Flush(db, next, level, f) {
      FlushKeepsClean(db, next, level, f);
    } else if level, f :| Move(db, next, level, f) {
      MoveIsCareful(db, next, level, f);
    } else if outputs, numbers :| Install(db, next, outputs, numbers) {
      if NothingNewer(db.merging.value) {
        InstallKeepsClean(db.version, db.merging.value, outputs, numbers, next.version);
      }
    } else if c :| StartAutomatic(db, next, c) || StartManual(db, next, c) {
      StartIsCareful(db, next, c);
    } else {
      assert next.version == db.version && (next.merging == db.merging || next.merging == None);
    }
  }

  ghost function NextCleanStep(): (Db, Db) -> bool {
    (db, next) => Step(db, next) && SplitsNoKey(db, next)
  }

  /** In every run whose merges split no user key, or start under no snapshot that could make them, every
      step is careful, and every state is good and boundary-clean. */
  lemma CleanRunKeepsInv(states: seq<Db>, i: nat)
    requires Run(states) && i < |states| && forall k :: 0 < k < |states| ==> SplitsNoKey(states[k - 1], states[k])
    ensures Inv(states[i]) && CleanLevels(states[i].version)
    ensures i + 1 < |states| ==> Careful(states[i], states[i + 1])
  {
    InitIsGood(states[0]);
    assert IsRun(NextCleanStep(), states);
    forall db, next | CleanInv(db) && NextCleanStep()(db, next) ensures CleanInv(next) {
      StepKeepsClean(db, next);
    }
    KeptByRun(NextCleanStep(), db => CleanInv(db), states, i);
    if i + 1 < |states| {
      assert NextCleanStep()(states[i], states[i + 1]);
      CleanIsCareful(states[i], states[i + 1]);
    }
  }

  lemma InputIsStored(db: Db, c: Merge, e: Entry)
    requires MemGood(db) && InputsThere(db.version, c) && e in c.input
    ensures e.key.sequence <= db.last
  {
    var l, f := InputOf(db.version, c, e);
    assert e in AllEntries(db.version);
  }

  lemma PickHasNoGaps(db: Db, file: File, pick: Pick, c: Merge)
    requires WellFormed(db.version) && AutoPick(db.version, db.maxFileSize, c.level, file, pick) && Carries(db, pick, c)
    ensures NoGaps(c)
  {
    var s, l := AutoPickHasNoGap(db.version, db.maxFileSize, c.level, file, pick);
    var s', l' :| IsHull(pick.inputs0, s', l') && c.low == s'.user && c.high == l'.user;
    PickIsOrdered(db.version, pick, s, l, s', l');
    NoGapInSets(pick, c, s', l');
  }

  lemma NoGapInSets(pick: Pick, c: Merge, s: InternalKey, l: InternalKey)
    requires NoGap(pick.inputs0, pick.inputs0 + pick.inputs1) && IsHull(pick.inputs0, s, l) && s.user <= l.user
    requires c.in0 == FilesOf(pick.inputs0) && c.in1 == FilesOf(pick.inputs1) && c.low == s.user && c.high == l.user
    ensures NoGaps(c)
  {
    forall user | c.low <= user <= c.high ensures InSome(c.in0 + c.in1, user) {
      assert Covered(pick.inputs0 + pick.inputs1, user);
      CoveredInSets(pick.inputs0, pick.inputs1, user);
    }
  }

  lemma PickIsOrdered(v: Version, pick: Pick, s: InternalKey, l: InternalKey, s': InternalKey, l': InternalKey)
    requires WellFormed(v) && IsSound(v, pick, s, l) && IsHull(pick.inputs0, s', l')
    ensures s'.user <= l'.user
  {
    forall f | f in pick.inputs0 ensures f in v[pick.level] {
      assert f in FilesOf(v[pick.level]);
    }
    FilesAreRanges(v, pick.level, pick.inputs0);
    HullIsOrdered(pick.inputs0, s', l');
  }

  lemma CoveredInSets(a: seq<File>, b: seq<File>, user: UserKey)
    requires Covered(a + b, user)
    ensures InSome(FilesOf(a) + FilesOf(b), user)
  {
    var f :| f in a + b && f.smallest.user <= user <= f.largest.user;
    assert f in FilesOf(a) + FilesOf(b);
  }

  /** Merges are started automatically, and only while no snapshot is held. */
  ghost predicate PicksAlone(db: Db, next: Db) {
    db.merging == None && next.merging.Some? ==> db.snapshots == [] && StartAutomatic(db, next, next.merging.value)
  }

  ghost predicate AutomaticInv(db: Db) {
    CleanInv(db)
      && (db.merging.Some? ==> Started(db.merging.value) && NoGaps(db.merging.value) && NothingNewer(db.merging.value))
  }

  /** Without snapshots nothing is newer than the snapshot of a merge, and an automatic pick has no gaps. */
  lemma AutomaticStart(db: Db, next: Db, c: Merge)
    requires Inv(db) && db.snapshots == [] && StartAutomatic(db, next, c)
    ensures Started(c) && NoGaps(c) && NothingNewer(c)
  {
    StartIsStarted(db, next, c);
    forall e | e in c.input ensures e.key.sequence <= c.snapshot {
      InputIsStored(db, c, e);
    }
    var file, pick :| AutoPick(db.version, db.maxFileSize, c.level, file, pick) && !IsTrivialMove(db.maxFileSize, pick)
      && Carries(db, pick, c);
    PickHasNoGaps(db, file, pick, c);
  }

  /** While a merge without gaps is under way no flush gets in its way. */
  lemma NoGapsKeepOut(db: Db, next: Db, c: Merge)
    requires Inv(db) && Step(db, next) && db.merging == Some(c) == next.merging && Started(c) && NoGaps(c)
    ensures KeepsOut(db.version, next.version, c)
  {
    if level, f :| Flush(db, next, level, f) {
      FlushedFits(db, next, level, f);
      NoGapKeepsFlushOut(db.version, c, level, f);
      FileInFlushed(db.version, level, f, next.version);
    } else {
      assert next.version == db.version;
    }
  }

  lemma AutomaticStepKeeps(db: Db, next: Db)
    requires AutomaticInv(db) && Step(db, next) && PicksAlone(db, next)
    ensures AutomaticInv(next) && SplitsNoKey(db, next)
  {
    if db.merging.Some? && db.merging == next.merging {
      NoGapsKeepOut(db, next, db.merging.value);
    }
    StepKeepsClean(db, next);
    if db.merging == None && next.merging.Some? {
      AutomaticStart(db, next, next.merging.value);
    } else {
      MergeStays(db, next);
    }
  }

  lemma MergeStays(db: Db, next: Db)
    requires Step(db, next) && !(db.merging == None && next.merging.Some?)
    ensures next.merging == None || next.merging == db.merging
  {
  }

  ghost function NextAutomaticStep(): (Db, Db) -> bool {
    (db, next) => Step(db, next) && PicksAlone(db, next)
  }

  /** In every run in which merges are automatic and start while no snapshot is held, whatever is flushed
      in between, every state is good and boundary-clean. */
  lemma AutomaticRunKeepsInv(states: seq<Db>, i: nat)
    requires Run(states) && i < |states| && forall k :: 0 < k < |states| ==> PicksAlone(states[k - 1], states[k])
    ensures Inv(states[i]) && CleanLevels(states[i].version)
  {
    InitIsGood(states[0]);
    assert IsRun(NextAutomaticStep(), states);
    forall db, next | AutomaticInv(db) && NextAutomaticStep()(db, next) ensures AutomaticInv(next) {
      AutomaticStepKeeps(db, next);
    }
    KeptByRun(NextAutomaticStep(), db => AutomaticInv(db), states, i);
  }
}
