// Recovery and crashes, step by step (db/db_impl.cc, db/version_set.cc).

module DurableRecovery {
  import opened DbFormat
  import opened Meaning
  import opened Versions
  import opened FlushLevel
  import opened Disks
  import opened DurableRun
  import opened DurableSteps

  const NO_FILES: Version := [[], [], [], [], [], [], []]
  const FIRST_POINT := Point({}, NO_FILES, 0, 2, 0, 0, {})

  /** DBImpl::NewDB: a manifest that says the database is empty. */
  ghost predicate Init(s: State) {
    && s.disk.logs == map[] && s.disk.tables == map[] && s.disk.current == 1
    && s.disk.manifests == map[1 := ManifestFile([FIRST_POINT], 1)]
    && s.phase == Down && s.issued == {} && s.acked == {}
  }

  function OpenedAt(p: Point): Recovery {
    Recovery(p.nextFile + 1, Position(0, 0), {}, {}, p.levels, None, None)
  }

  /** RecoverLogFile: the next groups in reading order become a synced level-0 table. */
  ghost predicate ConvertGroups(d: Disk, r: Recovery, d': Disk, r': Recovery, chunk: set<Group>)
    requires d.current in d.manifests && d.manifests[d.current].points != []
  {
    && r.newLog == None && !Earlier(r'.at, r.at) && chunk == ReadBetween(d.logs, LastPoint(d).logNumber, r.at, r'.at)
    && (if Ops(chunk) == {} then r'.levels == r.levels else NewLevel0(r, r'.levels, Ops(chunk)))
    && d' == (if Ops(chunk) == {} then d else WithTable(d, r.nextFile, Table(Ops(chunk), true)))
    && r' == r.(nextFile := r.nextFile + 1, at := r'.at, converted := r.converted + chunk, levels := r'.levels,
                newTables := r.newTables + if Ops(chunk) == {} then {} else {r.nextFile})
  }

  /** The new table goes to level 0, whatever is there. */
  ghost predicate NewLevel0(r: Recovery, w: Version, entries: set<Entry>) {
    exists f: File :: f.number == r.nextFile && ValidFile(f) && EntrySet(f.entries) == entries
                      && Flushed(r.levels, 0, f, w)
  }

  lemma ReadIsLogged(logs: map<nat, Log>, low: nat, start: Position, end: Position)
    ensures ReadBetween(logs, low, start, end) <= LogsFrom(logs, low)
  {
  }

  /** MarkFileNumberUsed. */
  ghost predicate MarkUsed(r: Recovery, r': Recovery) {
    r.newLog == None && r.nextFile <= r'.nextFile && r' == r.(nextFile := r'.nextFile)
  }

  ghost predicate WriteUnfinished(d: Disk, r: Recovery, d': Disk, junk: set<Entry>) {
    d' == WithTable(d, r.nextFile, Table(junk, false))
  }

  /** DBImpl::Open: every log is converted, and every number in use is below the next. */
  ghost predicate CreateLog(d: Disk, r: Recovery, d': Disk, r': Recovery)
    requires d.current in d.manifests && d.manifests[d.current].points != []
  {
    && r.newLog == None && r.converted == LogsFrom(d.logs, LastPoint(d).logNumber)
      && (forall n :: n in d.logs ==> n < r.nextFile)
    && d' == WithLog(d, r.nextFile, Log([], 0)) && r' == r.(newLog := Some(r.nextFile), nextFile := r.nextFile + 1)
  }

  /** LogAndApply's new manifest: a snapshot and the edit, synced before CURRENT names it. */
  ghost predicate WriteManifest(d: Disk, r: Recovery, d': Disk, r': Recovery, t: Point)
    requires d.current in d.manifests && d.manifests[d.current].points != []
  {
    && r.newLog.Some? && r.target == None && IsTarget(d, r, t)
    && d' == WithManifest(d, LastPoint(d).nextFile, ManifestFile([t], 1)) && r' == r.(target := Some(t))
  }

  function OpenedMemory(t: Point): Memory {
    Memory(t.tables, t.levels, {}, {}, None, NoWrite, t.logNumber, t.logNumber, t.nextFile, t.lastSequence, {}, NoFlush,
           NoCompaction, NoInstall)
  }

  ghost predicate SwitchCurrent(d: Disk, r: Recovery, d': Disk, m': Memory)
    requires d.current in d.manifests && d.manifests[d.current].points != []
  {
    r.target.Some? && d' == d.(current := LastPoint(d).nextFile) && m' == OpenedMemory(r.target.value)
  }

  ghost predicate RecoveryStep(d: Disk, r: Recovery, d': Disk, r': Recovery)
    requires d.current in d.manifests && d.manifests[d.current].points != []
  {
    || (exists chunk :: ConvertGroups(d, r, d', r', chunk))
    || (d' == d && MarkUsed(r, r'))
    || (r' == r && r.newLog == None && exists junk :: WriteUnfinished(d, r, d', junk))
    || CreateLog(d, r, d', r')
    || (exists t :: WriteManifest(d, r, d', r', t))
  }

  lemma OpenStep(d: Disk, acked: set<Group>, issued: set<Group>)
    requires DiskGood(d, acked, issued) && Settled(d) && issued == Survivors(d)
    ensures OpeningGood(d, OpenedAt(LastPoint(d)), acked, issued)
  {
    assert Content(d.tables, {}) == {} == Ops({});
  }

  /** A table numbered past everything the manifest knows of is not one it needs. */
  lemma NewTableDisk(d: Disk, n: nat, t: Table, acked: set<Group>, issued: set<Group>, d': Disk)
    requires DiskGood(d, acked, issued) && Settled(d) && issued == Survivors(d) && LastPoint(d).nextFile <= n
      && d' == WithTable(d, n, t)
    ensures DiskGood(d', acked, issued) && Settled(d') && issued == Survivors(d') && LastPoint(d') == LastPoint(d)
  {
    DiskFrame(d, acked, issued, d');
  }

  lemma ConvertedContent(tables: map<nat, Table>, newTables: set<nat>, n: nat, limit: nat, converted: set<Group>,
                         chunk: set<Group>)
    requires TablesExist(tables, newTables, limit) && limit <= n && Content(tables, newTables) == Ops(converted)
    ensures Content(tables[n := Table(Ops(chunk), true)], newTables + {n}) == Ops(converted + chunk)
  {
    var tables' := tables[n := Table(Ops(chunk), true)];
    ContentOfUnion(tables', newTables, {n});
    ContentUnchanged(tables, tables', newTables);
    assert Content(tables', {n}) == tables'[n].entries;
    OpsUnion(converted, chunk);
  }

  lemma ConvertStep(d: Disk, r: Recovery, acked: set<Group>, issued: set<Group>, d': Disk, r': Recovery,
                    chunk: set<Group>)
    requires OpeningGood(d, r, acked, issued) && ConvertGroups(d, r, d', r', chunk)
    ensures OpeningGood(d', r', acked, issued)
  {
    ReadIsLogged(d.logs, LastPoint(d).logNumber, r.at, r'.at);
    if Ops(chunk) == {} {
      OpsUnion(r.converted, chunk);
      assert r'.newTables == r.newTables;
    } else {
      NewTableDisk(d, r.nextFile, Table(Ops(chunk), true), acked, issued, d');
      ConvertedContent(d.tables, r.newTables, r.nextFile, r.nextFile, r.converted, chunk);
    }
  }

  lemma UnfinishedStep(d: Disk, r: Recovery, acked: set<Group>, issued: set<Group>, d': Disk, junk: set<Entry>)
    requires OpeningGood(d, r, acked, issued) && r.newLog == None && WriteUnfinished(d, r, d', junk)
    ensures OpeningGood(d', r, acked, issued)
  {
    NewTableDisk(d, r.nextFile, Table(junk, false), acked, issued, d');
    ContentUnchanged(d.tables, d'.tables, r.newTables);
  }

  lemma CreateLogStep(d: Disk, r: Recovery, acked: set<Group>, issued: set<Group>, d': Disk, r': Recovery)
    requires OpeningGood(d, r, acked, issued) && CreateLog(d, r, d', r')
    ensures OpeningGood(d', r', acked, issued)
  {
    SwitchDisk(d, r.nextFile, acked, issued, d');
    EmptyLog(d.logs, r.nextFile, LastPoint(d).logNumber);
  }

  lemma WriteManifestStep(d: Disk, r: Recovery, acked: set<Group>, issued: set<Group>, d': Disk, r': Recovery, t: Point)
    requires OpeningGood(d, r, acked, issued) && WriteManifest(d, r, d', r', t)
    ensures OpeningGood(d', r', acked, issued)
  {
    PointFrame(d, d', LastPoint(d), acked, issued);
    assert LastPoint(d') == LastPoint(d);
  }

  lemma RecoveryStepKeeps(d: Disk, r: Recovery, acked: set<Group>, issued: set<Group>, d': Disk, r': Recovery)
    requires OpeningGood(d, r, acked, issued) && RecoveryStep(d, r, d', r')
    ensures OpeningGood(d', r', acked, issued)
  {
    if chunk :| ConvertGroups(d, r, d', r', chunk) {
      ConvertStep(d, r, acked, issued, d', r', chunk);
    } else if r' == r && r.newLog == None && exists junk :: WriteUnfinished(d, r, d', junk) {
      var junk :| WriteUnfinished(d, r, d', junk);
      UnfinishedStep(d, r, acked, issued, d', junk);
    } else if CreateLog(d, r, d', r') {
      CreateLogStep(d, r, acked, issued, d', r');
    } else if t :| WriteManifest(d, r, d', r', t) {
      WriteManifestStep(d, r, acked, issued, d', r', t);
    }
  }

  /** The point recovery ends with stands for all that survived, and needs no log but the new one. */
  lemma TargetIsGood(d: Disk, r: Recovery, acked: set<Group>, issued: set<Group>, d': Disk)
    requires OpeningGood(d, r, acked, issued) && r.target.Some? && d' == d.(current := LastPoint(d).nextFile)
    ensures PointGood(d', r.target.value, acked, issued) && r.target.value.flushed == issued
    ensures LogsFrom(d.logs, r.newLog.value) == {}
  {
    var p, t := LastPoint(d), r.target.value;
    assert issued == p.flushed + r.converted;
    FlushedContent(d.tables, p.tables, r.newTables, p.flushed, r.converted, p.floor);
    assert LogsFrom(d.logs, t.logNumber) == {};
    OpsUnion(p.flushed, r.converted);
    assert SyncedFrom(d.logs, p.logNumber) <= LogsFrom(d.logs, p.logNumber);
  }

  lemma OpenedPlaces(d: Disk, t: Point, issued: set<Group>)
    requires LogsFrom(d.logs, t.logNumber) == {} && t.flushed == issued && Below(Ops(issued), t.lastSequence)
    ensures GroupsPlaced(d, OpenedMemory(t), issued, t.flushed)
  {
    var m := OpenedMemory(t);
    assert ImmGroups(m) == {} && WritingGroups(m) == {} && m.mem == {};
    assert Ops({}) == {} && issued + {} == issued;
  }

  lemma SwitchCurrentStep(d: Disk, r: Recovery, acked: set<Group>, issued: set<Group>, d': Disk, m': Memory)
    requires OpeningGood(d, r, acked, issued) && SwitchCurrent(d, r, d', m')
    ensures RunningGood(d', m', acked, issued)
  {
    var t := r.target.value;
    TargetIsGood(d, r, acked, issued, d');
    OpenedPlaces(d', t, issued);
    assert DiskGood(d', acked, issued) && SyncedPoint(d') == t;
    assert NumbersGood(d', m');
  }

  ghost predicate WriteStep(d: Disk, m: Memory, acked: set<Group>, issued: set<Group>, d': Disk, m': Memory,
                            acked': set<Group>, issued': set<Group>) {
    || (acked' == acked && exists g, sync :: AppendGroup(d, m, issued, d', m', issued', g, sync))
    || (acked' == acked && issued' == issued && SyncLog(d, m, d', m'))
    || (issued' == issued && d' == d && FinishWrite(m, acked, m', acked'))
  }

  ghost predicate BackgroundStep(d: Disk, m: Memory, d': Disk, m': Memory)
    requires PointsExist(d)
  {
    || SwitchMemTable(d, m, d', m') || (d' == d && InMemory(m, m', SyncedPoint(d).floor)) || BuildTable(d, m, d', m')
    || (m' == m && exists n, junk :: WritePartial(d, m, d', n, junk))
    || (m' == m && exists n, entries :: FinishOutput(d, m, d', n, entries))
    || AppendFlushEdit(d, m, d', m') || FinishFlush(d, m, d', m')
    || AppendCompactionEdit(d, m, d', m') || FinishCompaction(d, m, d', m')
    || AppendMoveEdit(d, m, d', m') || FinishMove(d, m, d', m')
    || (m' == m && DeleteObsolete(d, m, d'))
  }

  ghost predicate Crash(s: State, s': State) {
    && CrashOf(s.disk, s'.disk) && s'.phase == Down && s'.acked == s.acked
    && s'.disk.manifests[s'.disk.current].points != [] && s'.issued == Survivors(s'.disk)
  }

  ghost predicate Step(s: State, s': State)
    requires PointsExist(s.disk)
  {
    || Crash(s, s')
    || (s.phase == Down && s' == s.(phase := Opening(OpenedAt(LastPoint(s.disk)))))
    || (s.phase.Opening? && s'.acked == s.acked && s'.issued == s.issued
        && ((s'.phase.Opening? && RecoveryStep(s.disk, s.phase.r, s'.disk, s'.phase.r))
          || (s'.phase.Running? && SwitchCurrent(s.disk, s.phase.r, s'.disk, s'.phase.m))))
    || (s.phase.Running? && s'.phase.Running?
        && (WriteStep(s.disk, s.phase.m, s.acked, s.issued, s'.disk, s'.phase.m, s'.acked, s'.issued)
          || (s'.acked == s.acked && s'.issued == s.issued && BackgroundStep(s.disk, s.phase.m, s'.disk, s'.phase.m))))
  }

  lemma WriteStepKeeps(d: Disk, m: Memory, acked: set<Group>, issued: set<Group>, d': Disk, m': Memory,
                       acked': set<Group>, issued': set<Group>)
    requires RunningGood(d, m, acked, issued) && WriteStep(d, m, acked, issued, d', m', acked', issued')
    ensures RunningGood(d', m', acked', issued')
  {
    if acked' == acked && exists g, sync :: AppendGroup(d, m, issued, d', m', issued', g, sync) {
      var g, sync :| AppendGroup(d, m, issued, d', m', issued', g, sync);
      AppendStep(d, m, acked, issued, d', m', issued', g, sync);
    } else if acked' == acked && issued' == issued && SyncLog(d, m, d', m') {
      SyncStep(d, m, acked, issued, d', m');
    } else {
      FinishWriteStep(d, m, acked, issued, m', acked');
    }
  }

  lemma BackgroundStepKeeps(d: Disk, m: Memory, acked: set<Group>, issued: set<Group>, d': Disk, m': Memory)
    requires RunningGood(d, m, acked, issued) && BackgroundStep(d, m, d', m')
      && (AppendCompactionEdit(d, m, d', m') ==> MergeAnswers(d, m))
    ensures RunningGood(d', m', acked, issued)
  {
    if SwitchMemTable(d, m, d', m') {
      SwitchStep(d, m, acked, issued, d', m');
    } else if d' == d && InMemory(m, m', SyncedPoint(d).floor) {
      InMemoryStep(d, m, acked, issued, m');
    } else if BuildTable(d, m, d', m') {
      BuildStep(d, m, acked, issued, d', m');
    } else if AppendFlushEdit(d, m, d', m') {
      AppendFlushStep(d, m, acked, issued, d', m');
    } else if FinishFlush(d, m, d', m') {
      FinishFlushStep(d, m, acked, issued, d', m');
    } else if AppendCompactionEdit(d, m, d', m') {
      AppendCompactionStep(d, m, acked, issued, d', m');
    } else if FinishCompaction(d, m, d', m') {
      FinishCompactionStep(d, m, acked, issued, d', m');
    } else if AppendMoveEdit(d, m, d', m') {
      AppendMoveStep(d, m, acked, issued, d', m');
    } else if FinishMove(d, m, d', m') {
      FinishMoveStep(d, m, acked, issued, d', m');
    } else if m' == m && DeleteObsolete(d, m, d') {
      DeleteStep(d, m, acked, issued, d');
    } else {
      TableStepKeeps(d, m, acked, issued, d');
    }
  }

  lemma TableStepKeeps(d: Disk, m: Memory, acked: set<Group>, issued: set<Group>, d': Disk)
    requires RunningGood(d, m, acked, issued)
    requires (exists n, junk :: WritePartial(d, m, d', n, junk))
      || (exists n, entries :: FinishOutput(d, m, d', n, entries))
    ensures RunningGood(d', m, acked, issued)
  {
    if n, junk :| WritePartial(d, m, d', n, junk) {
      OutputStep(d, m, acked, issued, d', n, Table(junk, false));
    } else {
      var n, entries :| FinishOutput(d, m, d', n, entries);
      OutputStep(d, m, acked, issued, d', n, Table(entries, true));
    }
  }

  lemma InvHasDisk(s: State)
    requires Inv(s)
    ensures DiskGood(s.disk, s.acked, s.issued)
  {
  }

  /** If an edit replaces merged tables, their answers stay. */
  ghost predicate MergesAnswer(s: State, s': State)
    requires PointsExist(s.disk) && s.phase.Running?
  {
    s'.phase.Running? && AppendCompactionEdit(s.disk, s.phase.m, s'.disk, s'.phase.m) ==>
      MergeAnswers(s.disk, s.phase.m)
  }

  lemma StepKeepsInv(s: State, s': State)
    requires Inv(s) && Step(s, s') && (s.phase.Running? ==> MergesAnswer(s, s'))
    ensures Inv(s')
    ensures s.acked <= s'.acked
  {
    if Crash(s, s') {
      InvHasDisk(s);
      CrashIsRecoverable(s.disk, s'.disk, s.acked, s.issued);
    } else if s.phase == Down {
      OpenStep(s.disk, s.acked, s.issued);
    } else if s.phase.Opening? {
      if s'.phase.Opening? {
        RecoveryStepKeeps(s.disk, s.phase.r, s.acked, s.issued, s'.disk, s'.phase.r);
      } else {
        SwitchCurrentStep(s.disk, s.phase.r, s.acked, s.issued, s'.disk, s'.phase.m);
      }
    } else if WriteStep(s.disk, s.phase.m, s.acked, s.issued, s'.disk, s'.phase.m, s'.acked, s'.issued) {
      WriteStepKeeps(s.disk, s.phase.m, s.acked, s.issued, s'.disk, s'.phase.m, s'.acked, s'.issued);
    } else {
      BackgroundStepKeeps(s.disk, s.phase.m, s.acked, s.issued, s'.disk, s'.phase.m);
    }
  }

  ghost predicate Next(s: State, s': State) {
    PointsExist(s.disk) && Step(s, s')
  }
}
