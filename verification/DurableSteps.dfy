// Every step of the running engine keeps what recovery needs (db/db_impl.cc, db/version_set.cc).

module DurableSteps {
  import opened DbFormat
  import opened Meaning
  import opened Versions
  import opened Disks
  import opened DurableRun

  /** Steps that change memory only. */
  ghost predicate InMemory(m: Memory, m': Memory, floor: nat) {
    || StartFlush(m, m')
    || (exists c :: StartCompaction(m, floor, m', c))
    || OpenOutput(m, m') || AbandonCompaction(m, m')
    || AcquireVersion(m, m') || (exists v :: ReleaseVersion(m, m', v))
  }

  /** What none of the steps in memory changes. */
  ghost predicate SameData(m: Memory, m': Memory) {
    && m'.version == m.version && m'.levels == m.levels && m'.mem == m.mem && m'.imm == m.imm && m'.writing == m.writing
      && m'.installing == m.installing
    && m'.logNumber == m.logNumber && m'.logfileNumber == m.logfileNumber && m'.lastSequence == m.lastSequence
    && m.nextFile <= m'.nextFile
    && (m.installing != NoInstall ==> m'.flushing == m.flushing && m'.compacting == m.compacting)
  }

  lemma InMemoryKeepsData(m: Memory, m': Memory, floor: nat)
    requires InMemory(m, m', floor)
    ensures SameData(m, m')
  {
  }

  lemma SameDataKeeps(d: Disk, m: Memory, issued: set<Group>, m': Memory)
    requires PointsExist(d) && ManifestGood(d, m) && GroupsPlaced(d, m, issued, SyncedPoint(d).flushed)
      && SameData(m, m')
    ensures ManifestGood(d, m') && GroupsPlaced(d, m', issued, SyncedPoint(d).flushed)
  {
    assert ImmGroups(m') == ImmGroups(m) && WritingGroups(m') == WritingGroups(m);
  }

  lemma InMemoryNumbers(d: Disk, m: Memory, m': Memory, floor: nat)
    requires NumbersGood(d, m) && InMemory(m, m', floor) && FlushGood(d, m) && CompactionGood(d, m, floor)
    ensures NumbersGood(d, m')
  {
  }

  lemma InMemoryFlush(d: Disk, m: Memory, m': Memory, floor: nat)
    requires NumbersGood(d, m) && InMemory(m, m', floor) && FlushGood(d, m) && CompactionGood(d, m, floor)
    ensures FlushGood(d, m')
  {
    assert ImmGroups(m') == ImmGroups(m);
  }

  lemma InMemoryCompaction(d: Disk, m: Memory, m': Memory, floor: nat)
    requires NumbersGood(d, m) && InMemory(m, m', floor) && FlushGood(d, m) && CompactionGood(d, m, floor)
    ensures CompactionGood(d, m', floor)
  {
  }

  lemma InMemoryStep(d: Disk, m: Memory, acked: set<Group>, issued: set<Group>, m': Memory)
    requires RunningGood(d, m, acked, issued) && InMemory(m, m', SyncedPoint(d).floor)
    ensures RunningGood(d, m', acked, issued)
  {
    var floor := SyncedPoint(d).floor;
    InMemoryKeepsData(m, m', floor);
    SameDataKeeps(d, m, issued, m');
    InMemoryNumbers(d, m, m', floor);
    InMemoryFlush(d, m, m', floor);
    InMemoryCompaction(d, m, m', floor);
  }

  /** A table file that a live version, a finished flush or an edit being installed refers to. */
  ghost predicate Uses(m: Memory, n: nat) {
    || n in m.version || (exists v :: v in m.liveVersions && n in v)
    || (m.flushing.Built? && n in m.flushing.tables)
    || (m.installing.InstallCompaction? && m.compacting.Merging? && n in m.compacting.outputs)
  }

  /** Steps that change table files only, and none that is in use. */
  ghost predicate OnlyUnusedTables(d: Disk, m: Memory, d': Disk) {
    && d'.logs == d.logs && d'.manifests == d.manifests && d'.current == d.current
    && forall n :: Uses(m, n) && n in d.tables ==> n in d'.tables && d'.tables[n] == d.tables[n]
  }

  lemma DiskFrame(d: Disk, acked: set<Group>, issued: set<Group>, d': Disk)
    requires DiskGood(d, acked, issued) && d'.logs == d.logs && d'.manifests == d.manifests && d'.current == d.current
    requires forall n :: n in SyncedPoint(d).tables || n in LastPoint(d).tables ==>
      n in d'.tables && d'.tables[n] == d.tables[n]
    ensures DiskGood(d', acked, issued)
  {
    PointFrame(d, d', SyncedPoint(d), acked, issued);
    PointFrame(d, d', LastPoint(d), acked, issued);
  }

  lemma UnusedTablesManifest(d: Disk, m: Memory, d': Disk)
    requires PointsExist(d) && ManifestGood(d, m) && OnlyUnusedTables(d, m, d')
      && TablesExist(d.tables, m.version, m.nextFile)
    requires m.flushing.Built? ==> TablesExist(d.tables, m.flushing.tables, m.nextFile)
    ensures PointsExist(d') && ManifestGood(d', m)
    ensures forall n :: n in SyncedPoint(d).tables || n in LastPoint(d).tables ==>
      n in d'.tables && d'.tables[n] == d.tables[n]
  {
    assert forall n :: n in SyncedPoint(d).tables || n in LastPoint(d).tables ==> Uses(m, n) && n in d.tables;
  }

  lemma UnusedTablesMemory(d: Disk, m: Memory, floor: nat, d': Disk)
    requires NumbersGood(d, m) && FlushGood(d, m) && CompactionGood(d, m, floor) && OnlyUnusedTables(d, m, d')
    ensures NumbersGood(d', m) && FlushGood(d', m) && CompactionGood(d', m, floor)
  {
    if m.flushing.Built? {
      ContentUnchanged(d.tables, d'.tables, m.flushing.tables);
    }
  }

  lemma UnusedTablesStep(d: Disk, m: Memory, acked: set<Group>, issued: set<Group>, d': Disk)
    requires RunningGood(d, m, acked, issued) && OnlyUnusedTables(d, m, d')
    ensures RunningGood(d', m, acked, issued)
  {
    UnusedTablesManifest(d, m, d');
    DiskFrame(d, acked, issued, d');
    UnusedTablesMemory(d, m, SyncedPoint(d).floor, d');
    assert SyncedPoint(d') == SyncedPoint(d);
  }

  lemma PendingIsUnused(d: Disk, m: Memory, acked: set<Group>, issued: set<Group>, n: nat)
    requires RunningGood(d, m, acked, issued) && n in m.pending
    requires m.installing.InstallCompaction? && n in d.tables ==> !d.tables[n].synced
    ensures !Uses(m, n)
  {
  }

  lemma OutputStep(d: Disk, m: Memory, acked: set<Group>, issued: set<Group>, d': Disk, n: nat, t: Table)
    requires RunningGood(d, m, acked, issued)
    requires (WritePartial(d, m, d', n, t.entries) && !t.synced) || (FinishOutput(d, m, d', n, t.entries) && t.synced)
    ensures RunningGood(d', m, acked, issued)
  {
    PendingIsUnused(d, m, acked, issued, n);
    UnusedTablesStep(d, m, acked, issued, d');
  }

  lemma BuildStep(d: Disk, m: Memory, acked: set<Group>, issued: set<Group>, d': Disk, m': Memory)
    requires RunningGood(d, m, acked, issued) && BuildTable(d, m, d', m')
    ensures RunningGood(d', m', acked, issued)
  {
    PendingIsUnused(d, m, acked, issued, m.flushing.n);
    UnusedTablesStep(d, m, acked, issued, d');
    SameDataKeeps(d', m, issued, m');
    BuiltIsGood(d, m, d', m');
    BuiltNumbers(d, m, d', m', SyncedPoint(d').floor);
  }

  lemma BuiltIsGood(d: Disk, m: Memory, d': Disk, m': Memory)
    requires BuildTable(d, m, d', m') && NumbersGood(d', m) && FlushGood(d, m)
    ensures FlushGood(d', m')
  {
    var n, ops := m.flushing.n, Ops(ImmGroups(m));
    if ops != {} {
      assert Content(d'.tables, {n}) == d'.tables[n].entries;
    }
    assert ImmGroups(m') == ImmGroups(m);
  }

  lemma BuiltNumbers(d: Disk, m: Memory, d': Disk, m': Memory, floor: nat)
    requires BuildTable(d, m, d', m') && NumbersGood(d', m) && CompactionGood(d', m, floor) && FlushGood(d, m)
    ensures NumbersGood(d', m') && CompactionGood(d', m', floor)
  {
  }

  lemma EmptyLog(logs: map<nat, Log>, n: nat, low: nat)
    requires n !in logs
    ensures LogsFrom(logs[n := Log([], 0)], low) == LogsFrom(logs, low)
    ensures SyncedFrom(logs[n := Log([], 0)], low) == SyncedFrom(logs, low)
  {
    var logs' := logs[n := Log([], 0)];
    forall g | g in LogsFrom(logs, low) ensures g in LogsFrom(logs', low) {
      var k, i :| k in logs && low <= k && 0 <= i < |logs[k].records| && logs[k].records[i] == g;
      assert logs'[k].records[i] == g;
    }
    forall g | g in SyncedFrom(logs, low) ensures g in SyncedFrom(logs', low) {
      var k, i :| k in logs && low <= k && 0 <= i < |logs[k].records| && i < logs[k].synced && logs[k].records[i] == g;
      assert logs'[k].records[i] == g;
    }
  }

  /** The groups before high are all there are when no log is numbered high or later. */
  lemma AllBelow(logs: map<nat, Log>, low: nat, high: nat)
    requires forall n :: n in logs ==> n < high
    ensures LogGroups(logs, low, high) == LogsFrom(logs, low) && LogsFrom(logs, high) == {}
  {
    forall g | g in LogsFrom(logs, low) ensures g in LogGroups(logs, low, high) {
      var k, i :| k in logs && low <= k && 0 <= i < |logs[k].records| && logs[k].records[i] == g;
      assert k < high && logs[k].records[i] == g;
    }
  }

  lemma SwitchDisk(d: Disk, n: nat, acked: set<Group>, issued: set<Group>, d': Disk)
    requires DiskGood(d, acked, issued) && n !in d.logs && d' == WithLog(d, n, Log([], 0))
    ensures DiskGood(d', acked, issued)
  {
    EmptyLog(d.logs, n, SyncedPoint(d).logNumber);
    EmptyLog(d.logs, n, LastPoint(d).logNumber);
  }

  lemma SwitchPlaces(d: Disk, m: Memory, issued: set<Group>, flushed: set<Group>, d': Disk, m': Memory)
    requires GroupsPlaced(d, m, issued, flushed) && SwitchMemTable(d, m, d', m') && NumbersGood(d, m)
    ensures GroupsPlaced(d', m', issued, flushed)
  {
    EmptyLog(d.logs, m.nextFile, m.logNumber);
    AllBelow(d.logs, m.logNumber, m.nextFile);
    LogGroupsFrame(d.logs, d'.logs, m.logNumber, m.nextFile);
    EmptyLog(d.logs, m.nextFile, m.nextFile);
    assert ImmGroups(m) == {} && ImmGroups(m') == m.mem && WritingGroups(m) == WritingGroups(m') == {};
    assert flushed + {} == flushed && flushed + m.mem + {} == flushed + m.mem;
  }

  lemma SwitchNumbers(d: Disk, m: Memory, d': Disk, m': Memory, floor: nat)
    requires SwitchMemTable(d, m, d', m') && NumbersGood(d, m) && FlushGood(d, m) && CompactionGood(d, m, floor)
    ensures NumbersGood(d', m') && FlushGood(d', m') && CompactionGood(d', m', floor) && m.flushing == NoFlush
  {
  }

  lemma SwitchManifest(d: Disk, m: Memory, d': Disk, m': Memory)
    requires SwitchMemTable(d, m, d', m') && PointsExist(d) && ManifestGood(d, m) && m.flushing == NoFlush
    ensures PointsExist(d') && ManifestGood(d', m')
  {
  }

  lemma SwitchStep(d: Disk, m: Memory, acked: set<Group>, issued: set<Group>, d': Disk, m': Memory)
    requires RunningGood(d, m, acked, issued) && SwitchMemTable(d, m, d', m')
    ensures RunningGood(d', m', acked, issued)
  {
    SwitchDisk(d, m.nextFile, acked, issued, d');
    SwitchPlaces(d, m, issued, SyncedPoint(d).flushed, d', m');
    assert SyncedPoint(d') == SyncedPoint(d);
    SwitchNumbers(d, m, d', m', SyncedPoint(d).floor);
    SwitchManifest(d, m, d', m');
  }

  lemma ManifestAppended(d: Disk, q: Point, acked: set<Group>, issued: set<Group>, d': Disk)
    requires DiskGood(d, acked, issued) && Settled(d) && AppendPoint(d, d', q) && PointGood(d, q, acked, issued)
    ensures DiskGood(d', acked, issued) && SyncedPoint(d') == SyncedPoint(d) && LastPoint(d') == q
  {
    PointFrame(d, d', SyncedPoint(d), acked, issued);
    PointFrame(d, d', q, acked, issued);
  }

  lemma ManifestSynced(d: Disk, acked: set<Group>, issued: set<Group>, d': Disk)
    requires DiskGood(d, acked, issued) && SyncManifest(d, d')
    ensures DiskGood(d', acked, issued) && SyncedPoint(d') == LastPoint(d') == LastPoint(d) && Settled(d')
  {
    PointFrame(d, d', LastPoint(d), acked, issued);
  }

  /** The logs from low on are those before high and those from high on. */
  lemma SplitLogs(logs: map<nat, Log>, low: nat, high: nat)
    requires low <= high
    ensures LogsFrom(logs, low) == LogGroups(logs, low, high) + LogsFrom(logs, high)
    ensures SyncedFrom(logs, low) <= LogGroups(logs, low, high) + SyncedFrom(logs, high)
  {
    forall g | g in LogsFrom(logs, low) ensures g in LogGroups(logs, low, high) + LogsFrom(logs, high) {
      var k, i :| k in logs && low <= k && 0 <= i < |logs[k].records| && logs[k].records[i] == g;
      assert (k < high || high <= k) && logs[k].records[i] == g;
    }
    forall g | g in LogGroups(logs, low, high) + LogsFrom(logs, high) ensures g in LogsFrom(logs, low) {
      var k, i :| k in logs && low <= k && 0 <= i < |logs[k].records| && logs[k].records[i] == g;
      assert logs[k].records[i] == g;
    }
    forall g | g in SyncedFrom(logs, low) ensures g in LogGroups(logs, low, high) + SyncedFrom(logs, high) {
      var k, i :| k in logs && low <= k && 0 <= i < |logs[k].records| && i < logs[k].synced && logs[k].records[i] == g;
      assert (k < high || high <= k) && logs[k].records[i] == g;
    }
  }

  lemma ContentOfUnion(tables: map<nat, Table>, a: set<nat>, b: set<nat>)
    ensures Content(tables, a + b) == Content(tables, a) + Content(tables, b)
  {
  }

  /** A flushed memtable on top of tables that stand for older groups. */
  lemma FlushedContent(tables: map<nat, Table>, version: set<nat>, added: set<nat>, flushed: set<Group>,
                       imm: set<Group>, floor: nat)
    requires Content(tables, version) <= Ops(flushed) && Represents(Content(tables, version), Ops(flushed), floor)
    requires Content(tables, added) == Ops(imm) && AllNewer(Ops(imm), Ops(flushed))
      && DistinctSequences(Ops(flushed + imm))
    ensures Content(tables, version + added) <= Ops(flushed + imm)
    ensures Represents(Content(tables, version + added), Ops(flushed + imm), floor)
  {
    ContentOfUnion(tables, version, added);
    OpsUnion(flushed, imm);
    var upper, lower := Ops(imm), Content(tables, version);
    forall user, snapshot: nat | floor <= snapshot
      ensures Visible(Content(tables, version + added), user, snapshot) == Visible(Ops(flushed + imm), user, snapshot)
    {
      SameUnder(upper, lower, Ops(flushed), user, snapshot);
      assert lower + upper == upper + lower && Ops(flushed) + upper == upper + Ops(flushed);
    }
  }

  function FlushPoint(m: Memory, p: Point, w: Version): Point
    requires m.flushing.Built?
  {
    Point(m.version + m.flushing.tables, w, m.logfileNumber, m.nextFile, m.lastSequence, p.floor,
          p.flushed + ImmGroups(m))
  }

  lemma FlushPointOrder(m: Memory, flushed: set<Group>)
    requires AllNewer(Ops(m.mem), Ops(flushed + ImmGroups(m)))
      && AllNewer(Ops(WritingGroups(m)), Ops(flushed + ImmGroups(m) + m.mem))
    requires Below(Ops(flushed + ImmGroups(m) + m.mem), m.lastSequence)
    ensures AllNewer(Ops(m.mem + WritingGroups(m)), Ops(flushed + ImmGroups(m)))
      && Below(Ops(flushed + ImmGroups(m)), m.lastSequence)
  {
    OpsUnion(m.mem, WritingGroups(m));
    OpsUnion(flushed + ImmGroups(m), m.mem);
  }

  lemma FlushPointTables(d: Disk, m: Memory, p: Point, w: Version)
    requires TablesExist(d.tables, m.version, m.nextFile) && FlushGood(d, m) && m.flushing.Built?
    requires p.tables == m.version && Content(d.tables, p.tables) <= Ops(p.flushed)
      && Represents(Content(d.tables, p.tables), Ops(p.flushed), p.floor)
    requires AllNewer(Ops(ImmGroups(m)), Ops(p.flushed)) && DistinctSequences(Ops(p.flushed + ImmGroups(m)))
    ensures var q := FlushPoint(m, p, w);
            && TablesExist(d.tables, q.tables, q.nextFile) && Content(d.tables, q.tables) <= Ops(q.flushed)
            && Represents(Content(d.tables, q.tables), Ops(q.flushed), q.floor)
  {
    FlushedContent(d.tables, m.version, m.flushing.tables, p.flushed, ImmGroups(m), p.floor);
  }

  lemma FlushPointIsGood(d: Disk, m: Memory, acked: set<Group>, issued: set<Group>, w: Version)
    requires RunningGood(d, m, acked, issued) && m.flushing.Built? && m.installing == NoInstall
    ensures PointGood(d, FlushPoint(m, SyncedPoint(d), w), acked, issued)
  {
    var p := SyncedPoint(d);
    OpsMonotone(p.flushed + ImmGroups(m), issued);
    FlushPointOrder(m, p.flushed);
    FlushPointTables(d, m, p, w);
    SplitLogs(d.logs, m.logNumber, m.logfileNumber);
  }

  lemma AppendFlushStep(d: Disk, m: Memory, acked: set<Group>, issued: set<Group>, d': Disk, m': Memory)
    requires RunningGood(d, m, acked, issued) && AppendFlushEdit(d, m, d', m')
    ensures RunningGood(d', m', acked, issued)
  {
    var w := LastPoint(d').levels;
    FlushPointIsGood(d, m, acked, issued, w);
    ManifestAppended(d, FlushPoint(m, SyncedPoint(d), w), acked, issued, d');
    InstallingKeepsRest(d, m, issued, SyncedPoint(d), d', m');
  }

  lemma InstallingKeepsRest(d: Disk, m: Memory, issued: set<Group>, p: Point, d': Disk, m': Memory)
    requires GroupsPlaced(d, m, issued, p.flushed) && NumbersGood(d, m) && FlushGood(d, m)
      && CompactionGood(d, m, p.floor)
    requires d' == d.(manifests := d'.manifests) && m' == m.(installing := m'.installing)
    ensures GroupsPlaced(d', m', issued, p.flushed) && NumbersGood(d', m') && FlushGood(d', m')
      && CompactionGood(d', m', p.floor)
  {
    assert ImmGroups(m') == ImmGroups(m) && WritingGroups(m') == WritingGroups(m);
  }

  lemma FinishFlushPlaces(d: Disk, m: Memory, issued: set<Group>, flushed: set<Group>, m': Memory)
    requires GroupsPlaced(d, m, issued, flushed) && m.logNumber <= m.logfileNumber
    requires m' == m.(version := m'.version, levels := m'.levels, logNumber := m.logfileNumber, imm := None, flushing :=
                      NoFlush, installing := NoInstall)
    ensures GroupsPlaced(d, m', issued, flushed + ImmGroups(m))
  {
    assert ImmGroups(m') == {} && WritingGroups(m') == WritingGroups(m);
    var f := flushed + ImmGroups(m);
    assert f + {} == f && f + {} + m.mem == f + m.mem;
    assert LogGroups(d.logs, m.logfileNumber, m.logfileNumber) == {};
    assert Ops({}) == {};
  }

  lemma FinishFlushMemory(d: Disk, m: Memory, p: Point, d': Disk, m': Memory)
    requires PointsExist(d) && FinishFlush(d, m, d', m')
    requires NumbersGood(d, m) && FlushGood(d, m) && CompactionGood(d, m, p.floor)
    ensures NumbersGood(d', m') && FlushGood(d', m') && CompactionGood(d', m', p.floor)
  {
  }

  lemma FinishFlushStep(d: Disk, m: Memory, acked: set<Group>, issued: set<Group>, d': Disk, m': Memory)
    requires RunningGood(d, m, acked, issued) && FinishFlush(d, m, d', m')
    ensures RunningGood(d', m', acked, issued)
  {
    var p := SyncedPoint(d);
    ManifestSynced(d, acked, issued, d');
    FinishFlushPlaces(d, m, issued, p.flushed, m');
    FinishFlushMemory(d, m, p, d', m');
    assert GroupsPlaced(d', m', issued, p.flushed + ImmGroups(m));
    assert ManifestGood(d', m');
  }

  function CompactionPoint(m: Memory, p: Point, w: Version): Point
    requires m.compacting.Merging?
  {
    Point(m.version - m.compacting.inputs + m.compacting.outputs, w, m.logNumber, m.nextFile, m.lastSequence,
          m.compacting.merge.snapshot, p.flushed)
  }

  /** That the outputs in place of the inputs answer as the current version does. */
  ghost predicate MergeAnswers(d: Disk, m: Memory) {
    m.compacting.Merging? ==>
      KeepsAnswers(Content(d.tables, m.version),
                   Content(d.tables, m.version - m.compacting.inputs + m.compacting.outputs),
                   m.compacting.merge.snapshot)
  }

  lemma CompactionPointIsGood(d: Disk, m: Memory, acked: set<Group>, issued: set<Group>, w: Version)
    requires RunningGood(d, m, acked, issued) && m.compacting.Merging? && m.installing == NoInstall
    requires TablesExist(d.tables, m.compacting.outputs, m.nextFile) && MergeAnswers(d, m)
    ensures PointGood(d, CompactionPoint(m, SyncedPoint(d), w), acked, issued)
  {
  }

  lemma AppendCompactionStep(d: Disk, m: Memory, acked: set<Group>, issued: set<Group>, d': Disk, m': Memory)
    requires RunningGood(d, m, acked, issued) && AppendCompactionEdit(d, m, d', m') && MergeAnswers(d, m)
    ensures RunningGood(d', m', acked, issued)
  {
    var w := LastPoint(d').levels;
    CompactionPointIsGood(d, m, acked, issued, w);
    ManifestAppended(d, CompactionPoint(m, SyncedPoint(d), w), acked, issued, d');
    InstallingKeepsRest(d, m, issued, SyncedPoint(d), d', m');
  }

  function MovePoint(m: Memory, p: Point, w: Version): Point {
    Point(m.version, w, m.logNumber, m.nextFile, m.lastSequence, p.floor, p.flushed)
  }

  lemma AppendMoveStep(d: Disk, m: Memory, acked: set<Group>, issued: set<Group>, d': Disk, m': Memory)
    requires RunningGood(d, m, acked, issued) && AppendMoveEdit(d, m, d', m')
    ensures RunningGood(d', m', acked, issued)
  {
    var w := LastPoint(d').levels;
    assert PointGood(d, MovePoint(m, SyncedPoint(d), w), acked, issued);
    ManifestAppended(d, MovePoint(m, SyncedPoint(d), w), acked, issued, d');
    InstallingKeepsRest(d, m, issued, SyncedPoint(d), d', m');
  }

  lemma FinishMoveStep(d: Disk, m: Memory, acked: set<Group>, issued: set<Group>, d': Disk, m': Memory)
    requires RunningGood(d, m, acked, issued) && FinishMove(d, m, d', m')
    ensures RunningGood(d', m', acked, issued)
  {
    ManifestSynced(d, acked, issued, d');
    assert ImmGroups(m') == ImmGroups(m) && WritingGroups(m') == WritingGroups(m);
    assert GroupsPlaced(d', m', issued, SyncedPoint(d').flushed);
  }

  lemma FinishCompactionPlaces(d: Disk, m: Memory, issued: set<Group>, flushed: set<Group>, m': Memory)
    requires GroupsPlaced(d, m, issued, flushed)
    requires m' == m.(version := m'.version, levels := m'.levels, pending := m'.pending, compacting := NoCompaction,
                      installing := NoInstall)
    ensures GroupsPlaced(d, m', issued, flushed)
  {
    assert ImmGroups(m') == ImmGroups(m) && WritingGroups(m') == WritingGroups(m);
  }

  lemma FinishCompactionMemory(d: Disk, m: Memory, floor: nat, d': Disk, m': Memory)
    requires PointsExist(d) && FinishCompaction(d, m, d', m') && NumbersGood(d, m) && CompactionGood(d, m, floor)
    requires TablesExist(d.tables, m.compacting.outputs, m.nextFile)
    ensures NumbersGood(d', m')
  {
  }

  lemma FinishCompactionStep(d: Disk, m: Memory, acked: set<Group>, issued: set<Group>, d': Disk, m': Memory)
    requires RunningGood(d, m, acked, issued) && FinishCompaction(d, m, d', m')
    ensures RunningGood(d', m', acked, issued)
  {
    ManifestSynced(d, acked, issued, d');
    FinishCompactionPlaces(d, m, issued, SyncedPoint(d).flushed, m');
    FinishCompactionMemory(d, m, SyncedPoint(d).floor, d', m');
    assert GroupsPlaced(d', m', issued, SyncedPoint(d').flushed);
  }

  lemma DropLog(logs: map<nat, Log>, n: nat, low: nat)
    requires n < low
    ensures LogsFrom(logs - {n}, low) == LogsFrom(logs, low) && SyncedFrom(logs - {n}, low) == SyncedFrom(logs, low)
  {
    forall g | g in LogsFrom(logs, low) ensures g in LogsFrom(logs - {n}, low) {
      var k, i :| k in logs && low <= k && 0 <= i < |logs[k].records| && logs[k].records[i] == g;
      assert k in logs - {n} && (logs - {n})[k].records[i] == g;
    }
    forall g | g in SyncedFrom(logs, low) ensures g in SyncedFrom(logs - {n}, low) {
      var k, i :| k in logs && low <= k && 0 <= i < |logs[k].records| && i < logs[k].synced && logs[k].records[i] == g;
      assert k in logs - {n} && (logs - {n})[k].records[i] == g;
    }
  }

  lemma DeleteLogStep(d: Disk, m: Memory, acked: set<Group>, issued: set<Group>, d': Disk, n: nat)
    requires RunningGood(d, m, acked, issued) && m.installing == NoInstall && n < m.logNumber
      && d' == d.(logs := d.logs - {n})
    ensures RunningGood(d', m, acked, issued)
  {
    DropLog(d.logs, n, m.logNumber);
    DropLog(d.logs, n, m.logfileNumber);
    LogGroupsFrame(d.logs, d'.logs, m.logNumber, m.logfileNumber);
    assert PointGood(d', SyncedPoint(d), acked, issued);
    assert DiskGood(d', acked, issued);
    assert GroupsPlaced(d', m, issued, SyncedPoint(d).flushed);
  }

  lemma DeleteManifestStep(d: Disk, m: Memory, acked: set<Group>, issued: set<Group>, d': Disk, n: nat)
    requires RunningGood(d, m, acked, issued) && n < d.current && d' == d.(manifests := d.manifests - {n})
    ensures RunningGood(d', m, acked, issued)
  {
    PointFrame(d, d', SyncedPoint(d), acked, issued);
    PointFrame(d, d', LastPoint(d), acked, issued);
    assert DiskGood(d', acked, issued);
    assert GroupsPlaced(d', m, issued, SyncedPoint(d).flushed);
  }

  lemma DeleteStep(d: Disk, m: Memory, acked: set<Group>, issued: set<Group>, d': Disk)
    requires RunningGood(d, m, acked, issued) && DeleteObsolete(d, m, d')
    ensures RunningGood(d', m, acked, issued)
  {
    if n :| n in d.logs && n < m.logNumber && d' == d.(logs := d.logs - {n}) {
      DeleteLogStep(d, m, acked, issued, d', n);
    } else if n :| n in d.manifests && n < d.current && d' == d.(manifests := d.manifests - {n}) {
      DeleteManifestStep(d, m, acked, issued, d', n);
    } else {
      var n :| n in d.tables && !Live(m, n) && d' == d.(tables := d.tables - {n});
      assert !Uses(m, n);
      UnusedTablesStep(d, m, acked, issued, d');
    }
  }
}
