/** The engine as a state machine over its disk, with crashes between any two steps. */
module DurableRun {
  import opened DbFormat
  import opened Meaning
  import opened Disks
  import opened Versions
  import opened CompactionMeaning
  import opened FlushLevel
  import opened CompactionWindow

  /** A memtable flush: being built under a pending number, or built and not yet installed. */
  datatype Flushing = NoFlush | Building(n: nat) | Built(tables: set<nat>)

  /** A compaction: the tables of its input version, its inputs and its outputs so far, and the merge. */
  datatype Compacting = NoCompaction | Merging(base: set<nat>, inputs: set<nat>, outputs: set<nat>, merge: Merge)

  /** Which edit LogAndApply has appended to the manifest but not yet synced. */
  datatype Installing = NoInstall | InstallFlush | InstallCompaction | InstallMove

  /** The write group between its log append and its acknowledgement. */
  datatype Writing = NoWrite | Appended(group: Group, sync: bool, synced: bool)

  datatype Memory = Memory(
    version: set<nat>, levels: Version, liveVersions: set<set<nat>>, mem: set<Group>, imm: Option<set<Group>>,
      writing: Writing,
    logNumber: nat, logfileNumber: nat, nextFile: nat, lastSequence: nat, pending: set<nat>,
    flushing: Flushing, compacting: Compacting, installing: Installing)

  /** Recovery under way: log contents turned into tables, then a new log, then a new manifest. */
  datatype Recovery = Recovery(nextFile: nat, at: Position, converted: set<Group>, newTables: set<nat>, levels: Version,
                               newLog: Option<nat>, target: Option<Point>)

  datatype Phase = Down | Opening(r: Recovery) | Running(m: Memory)

  /** issued: every group of this history still to be reckoned with; acked: those written with
      sync and acknowledged. */
  datatype State = State(disk: Disk, phase: Phase, issued: set<Group>, acked: set<Group>)

  function ImmGroups(m: Memory): set<Group> {
    if m.imm.Some? then m.imm.value else {}
  }

  function WritingGroups(m: Memory): set<Group> {
    if m.writing.Appended? then {m.writing.group} else {}
  }

  /** Where the groups of a running engine are. */
  ghost predicate GroupsPlaced(disk: Disk, m: Memory, issued: set<Group>, flushed: set<Group>) {
    && LogGroups(disk.logs, m.logNumber, m.logfileNumber) == ImmGroups(m)
    && LogsFrom(disk.logs, m.logfileNumber) == m.mem + WritingGroups(m)
    && issued == flushed + ImmGroups(m) + m.mem + WritingGroups(m)
    && AllNewer(Ops(ImmGroups(m)), Ops(flushed)) && AllNewer(Ops(m.mem), Ops(flushed + ImmGroups(m)))
    && AllNewer(Ops(WritingGroups(m)), Ops(flushed + ImmGroups(m) + m.mem))
    && Below(Ops(flushed + ImmGroups(m) + m.mem), m.lastSequence)
    && Below(Ops(WritingGroups(m)), m.lastSequence + if m.writing.Appended? then |m.writing.group| else 0)
    && (m.imm.None? ==> m.logNumber == m.logfileNumber)
    && (m.writing.Appended? && m.writing.synced ==> m.writing.group in SyncedFrom(disk.logs, m.logfileNumber))
  }

  /** The numbers in use and the ones still free. */
  ghost predicate NumbersGood(disk: Disk, m: Memory) {
    && m.logNumber <= m.logfileNumber < m.nextFile && m.logfileNumber in disk.logs
    && (forall n :: n in disk.logs ==> n <= m.logfileNumber)
    && (forall n :: n in m.pending ==> n < m.nextFile)
    && TablesExist(disk.tables, m.version, m.nextFile)
    && (forall v :: v in m.liveVersions ==> TablesExist(disk.tables, v, m.nextFile))
    && m.pending !! m.version && (forall v :: v in m.liveVersions ==> m.pending !! v)
  }

  ghost predicate FlushGood(disk: Disk, m: Memory) {
    match m.flushing
    case NoFlush => true
    case Building(n) => m.imm.Some? && n in m.pending && (m.compacting.Merging? ==> n !in m.compacting.outputs)
    case Built(tables) =>
      && m.imm.Some? && TablesExist(disk.tables, tables, m.nextFile)
        && Content(disk.tables, tables) == Ops(ImmGroups(m))
      && tables !! m.pending
  }

  ghost predicate CompactionGood(disk: Disk, m: Memory, floor: nat) {
    m.compacting.Merging? ==>
      var c := m.compacting;
      && c.base in m.liveVersions && c.inputs <= c.base <= m.version && c.outputs <= m.pending
      && floor <= c.merge.snapshot <= m.lastSequence
  }

  /** How the manifest relates to memory: caught up, or ahead by the edit being installed. */
  ghost predicate ManifestGood(disk: Disk, m: Memory)
    requires disk.current in disk.manifests
    requires 1 <= disk.manifests[disk.current].synced <= |disk.manifests[disk.current].points|
  {
    var p, q := SyncedPoint(disk), LastPoint(disk);
    && p.tables == m.version && p.levels == m.levels && p.logNumber == m.logNumber && p.nextFile <= m.nextFile
      && p.lastSequence <= m.lastSequence
    && q.nextFile <= m.nextFile && q.lastSequence <= m.lastSequence
    && match m.installing
       case NoInstall => p == q && |disk.manifests[disk.current].points| == disk.manifests[disk.current].synced
       case InstallFlush =>
         && m.flushing.Built? && q.tables == m.version + m.flushing.tables && q.logNumber == m.logfileNumber
         && q.floor == p.floor && q.flushed == p.flushed + ImmGroups(m)
       case InstallCompaction =>
         && m.compacting.Merging? && m.flushing == NoFlush
         && q.tables == m.version - m.compacting.inputs + m.compacting.outputs && q.logNumber == m.logNumber
         && q.floor == m.compacting.merge.snapshot && q.flushed == p.flushed
         && TablesExist(disk.tables, m.compacting.outputs, m.nextFile)
       case InstallMove =>
         && m.compacting == NoCompaction && m.flushing == NoFlush
         && q.tables == m.version && q.logNumber == m.logNumber && q.floor == p.floor && q.flushed == p.flushed
  }

  ghost predicate RunningGood(disk: Disk, m: Memory, acked: set<Group>, issued: set<Group>) {
    && DiskGood(disk, acked, issued)
    && ManifestGood(disk, m) && NumbersGood(disk, m)
    && GroupsPlaced(disk, m, issued, SyncedPoint(disk).flushed)
    && FlushGood(disk, m) && CompactionGood(disk, m, SyncedPoint(disk).floor)
  }

  ghost predicate Settled(disk: Disk)
    requires disk.current in disk.manifests
  {
    disk.manifests[disk.current].synced == |disk.manifests[disk.current].points|
  }

  ghost predicate OpeningGood(disk: Disk, r: Recovery, acked: set<Group>, issued: set<Group>) {
    && DiskGood(disk, acked, issued) && Settled(disk) && issued == Survivors(disk)
    && var p := LastPoint(disk);
       && p.nextFile < r.nextFile && r.newTables !! p.tables
       && TablesExist(disk.tables, r.newTables, r.nextFile) && Content(disk.tables, r.newTables) == Ops(r.converted)
       && r.converted <= LogsFrom(disk.logs, p.logNumber)
       && (r.newLog.Some? ==>
         && r.newLog.value < r.nextFile && r.newLog.value in disk.logs && disk.logs[r.newLog.value].records == []
         && (forall n :: n in disk.logs ==> n <= r.newLog.value)
         && p.logNumber <= r.newLog.value && r.converted == LogsFrom(disk.logs, p.logNumber))
       && (r.target.Some? ==>
         && r.newLog.Some? && IsTarget(disk, r, r.target.value)
         && p.nextFile in disk.manifests && disk.manifests[p.nextFile] == ManifestFile([r.target.value], 1))
  }

  /** The edit that ends recovery: all converted logs as tables, the new log as the first one
      still needed, and a last sequence number no lower than any recovered one. */
  ghost predicate IsTarget(disk: Disk, r: Recovery, t: Point)
    requires disk.current in disk.manifests && disk.manifests[disk.current].points != []
    requires r.newLog.Some?
  {
    var p := LastPoint(disk);
    && t.tables == p.tables + r.newTables && t.levels == r.levels && t.logNumber == r.newLog.value
      && t.nextFile == r.nextFile
    && t.floor == p.floor && t.flushed == p.flushed + r.converted
    && p.lastSequence <= t.lastSequence && Below(Ops(r.converted), t.lastSequence)
    && (t.lastSequence == p.lastSequence || exists e :: e in Ops(r.converted) && e.key.sequence == t.lastSequence)
  }

  ghost predicate Inv(s: State) {
    match s.phase
    case Down => DiskGood(s.disk, s.acked, s.issued) && Settled(s.disk) && s.issued == Survivors(s.disk)
    case Opening(r) => OpeningGood(s.disk, r, s.acked, s.issued)
    case Running(m) => RunningGood(s.disk, m, s.acked, s.issued)
  }

  function WithLog(disk: Disk, n: nat, log: Log): Disk {
    disk.(logs := disk.logs[n := log])
  }

  function WithTable(disk: Disk, n: nat, table: Table): Disk {
    disk.(tables := disk.tables[n := table])
  }

  function WithManifest(disk: Disk, n: nat, m: ManifestFile): Disk {
    disk.(manifests := disk.manifests[n := m])
  }

  /** The leader's log append: new sequence numbers, nothing synced yet. */
  ghost predicate AppendGroup(d: Disk, m: Memory, issued: set<Group>, d': Disk, m': Memory, issued': set<Group>,
                              g: Group, sync: bool) {
    && m.writing == NoWrite && m.logfileNumber in d.logs
    && DistinctSequences(g) && (forall e :: e in g ==> m.lastSequence < e.key.sequence <= m.lastSequence + |g|)
    && var log := d.logs[m.logfileNumber];
       && d' == WithLog(d, m.logfileNumber, log.(records := log.records + [g]))
       && m' == m.(writing := Appended(g, sync, false)) && issued' == issued + {g}
  }

  ghost predicate SyncLog(d: Disk, m: Memory, d': Disk, m': Memory) {
    && m.writing.Appended? && m.writing.sync && m.logfileNumber in d.logs
    && var log := d.logs[m.logfileNumber];
       && d' == WithLog(d, m.logfileNumber, log.(synced := |log.records|))
       && m' == m.(writing := m.writing.(synced := true))
  }

  /** The group reaches the memtable, LastSequence is published and the writers are acknowledged. */
  ghost predicate FinishWrite(m: Memory, acked: set<Group>, m': Memory, acked': set<Group>) {
    && m.writing.Appended? && (m.writing.sync ==> m.writing.synced)
    && m' == m.(writing := NoWrite, mem := m.mem + {m.writing.group}, lastSequence :=
                m.lastSequence + |m.writing.group|)
    && acked' == acked + if m.writing.sync then {m.writing.group} else {}
  }

  /** MakeRoomForWrite: a new log file and a new memtable. */
  ghost predicate SwitchMemTable(d: Disk, m: Memory, d': Disk, m': Memory) {
    && m.writing == NoWrite && m.imm == None
    && d' == WithLog(d, m.nextFile, Log([], 0))
    && m' == m.(logfileNumber := m.nextFile, nextFile := m.nextFile + 1, imm := Some(m.mem), mem := {})
  }

  ghost predicate StartFlush(m: Memory, m': Memory) {
    && m.imm.Some? && m.flushing == NoFlush && m.installing == NoInstall
    && m' == m.(flushing := Building(m.nextFile), pending := m.pending + {m.nextFile}, nextFile := m.nextFile + 1)
  }

  /** BuildTable: a synced table file, or none if the memtable is empty. */
  ghost predicate BuildTable(d: Disk, m: Memory, d': Disk, m': Memory) {
    && m.flushing.Building?
    && var n, ops := m.flushing.n, Ops(ImmGroups(m));
       && d' == (if ops == {} then d else WithTable(d, n, Table(ops, true)))
       && m' == m.(flushing := Built(if ops == {} then {} else {n}), pending := m.pending - {n})
  }

  /** A table file that is still being written holds anything, and nothing for certain. */
  ghost predicate WritePartial(d: Disk, m: Memory, d': Disk, n: nat, junk: set<Entry>) {
    n in m.pending && (n in d.tables ==> !d.tables[n].synced) && d' == WithTable(d, n, Table(junk, false))
  }

  ghost predicate AppendPoint(d: Disk, d': Disk, q: Point)
    requires d.current in d.manifests
  {
    var f := d.manifests[d.current];
    d' == WithManifest(d, d.current, f.(points := f.points + [q]))
  }

  ghost predicate SyncManifest(d: Disk, d': Disk)
    requires d.current in d.manifests
  {
    var f := d.manifests[d.current];
    d' == WithManifest(d, d.current, f.(synced := |f.points|))
  }

  /** Where the flushed table goes, if there is one. */
  ghost predicate FlushLevels(m: Memory, w: Version)
    requires m.flushing.Built?
  {
    if m.flushing.tables == {} then w == m.levels
    else exists f: File, level: nat, maxFileSize: nat ::
      && m.flushing.tables == {f.number} && EntrySet(f.entries) == Ops(ImmGroups(m)) && ValidFile(f)
      && IsPickedLevel(m.levels, f.smallest.user, f.largest.user, maxFileSize, level) && Flushed(m.levels, level, f, w)
  }

  /** While a compaction is under way, a table that is new at the level of its outputs has all that the
      compaction keeps on one side. */
  ghost predicate LeavesRoom(m: Memory, w: Version) {
    m.compacting.Merging? ==>
      var c := m.compacting.merge;
      c.level + 1 < NUM_LEVELS ==> forall f :: f in w[c.level + 1] && f !in m.levels[c.level + 1] ==>
        Aside(KeptOf(c), f)
  }

  /** CompactMemTable's LogAndApply: the table is added and earlier logs are no longer needed. */
  ghost predicate AppendFlushEdit(d: Disk, m: Memory, d': Disk, m': Memory)
    requires d.current in d.manifests
    requires 1 <= d.manifests[d.current].synced <= |d.manifests[d.current].points|
  {
    var p := SyncedPoint(d);
    && m.flushing.Built? && m.installing == NoInstall
    && (exists w :: FlushLevels(m, w) && LeavesRoom(m, w) && AppendPoint(d, d',
         Point(m.version + m.flushing.tables, w, m.logfileNumber, m.nextFile, m.lastSequence, p.floor,
               p.flushed + ImmGroups(m))))
    && m' == m.(installing := InstallFlush)
  }

  ghost predicate FinishFlush(d: Disk, m: Memory, d': Disk, m': Memory)
    requires PointsExist(d)
  {
    && m.installing == InstallFlush && m.flushing.Built? && SyncManifest(d, d')
    && m' == m.(version := m.version + m.flushing.tables, levels := LastPoint(d).levels, logNumber := m.logfileNumber,
                imm := None, flushing := NoFlush, installing := NoInstall)
  }

  function NumbersOf(files: set<File>): set<nat> {
    set f | f in files :: f.number
  }

  /** A compaction of the current levels starts: it takes nothing newer below what stays, and uncovers no
      value. */
  ghost predicate StartCompaction(m: Memory, floor: nat, m': Memory, c: Merge) {
    && m.compacting == NoCompaction && m.flushing == NoFlush && m.installing == NoInstall
    && c.base == m.levels && Started(c) && IsSafe(c)
    && NumbersOf(c.in0 + c.in1) <= m.version && floor <= c.snapshot <= m.lastSequence
    && m' == m.(compacting := Merging(m.version, NumbersOf(c.in0 + c.in1), {}, c), liveVersions :=
                m.liveVersions + {m.version})
  }

  ghost predicate OpenOutput(m: Memory, m': Memory) {
    && m.compacting.Merging? && m.installing == NoInstall
    && m' == m.(compacting := m.compacting.(outputs := m.compacting.outputs + {m.nextFile}),
                pending := m.pending + {m.nextFile}, nextFile := m.nextFile + 1)
  }

  ghost predicate FinishOutput(d: Disk, m: Memory, d': Disk, n: nat, entries: set<Entry>) {
    m.compacting.Merging? && m.installing == NoInstall && n in m.compacting.outputs
      && d' == WithTable(d, n, Table(entries, true))
  }

  /** The merge keeps every answer from its smallest snapshot on. */
  ghost predicate KeepsAnswers(before: set<Entry>, after: set<Entry>, snapshot: nat) {
    after <= before && Represents(after, before, snapshot)
  }

  /** These files, which the drop rule made of the inputs, are the output tables, and take the place of
      the inputs in the current levels. */
  ghost predicate OutputsInstalled(d: Disk, m: Memory, outputs: seq<File>, numbers: nat -> nat, w: Version)
    requires m.compacting.Merging?
  {
    var c := m.compacting.merge;
    && c.level + 1 < NUM_LEVELS && Merged(c, outputs, numbers)
      && Installed(m.levels, c.level, c.in0, c.in1, FilesOf(outputs), w)
    && NumbersOf(FilesOf(outputs)) == m.compacting.outputs
    && (forall f, g :: f in outputs && g in outputs && f.number == g.number ==> f == g)
    && forall f :: f in outputs ==> f.number in d.tables && d.tables[f.number] == Table(EntrySet(f.entries), true)
  }

  ghost predicate AppendCompactionEdit(d: Disk, m: Memory, d': Disk, m': Memory)
    requires d.current in d.manifests
    requires 1 <= d.manifests[d.current].synced <= |d.manifests[d.current].points|
  {
    var p, c := SyncedPoint(d), m.compacting;
    && c.Merging? && m.flushing == NoFlush && m.installing == NoInstall
    && TablesExist(d.tables, c.outputs, m.nextFile)
    && (exists outputs, numbers, w :: OutputsInstalled(d, m, outputs, numbers, w) && AppendPoint(d, d',
         Point(m.version - c.inputs + c.outputs, w, m.logNumber, m.nextFile, m.lastSequence, c.merge.snapshot,
               p.flushed)))
    && m' == m.(installing := InstallCompaction)
  }

  ghost predicate FinishCompaction(d: Disk, m: Memory, d': Disk, m': Memory)
    requires PointsExist(d)
  {
    && m.installing == InstallCompaction && m.compacting.Merging? && SyncManifest(d, d')
    && m' == m.(version := m.version - m.compacting.inputs + m.compacting.outputs, levels := LastPoint(d).levels,
                pending := m.pending - m.compacting.outputs, compacting := NoCompaction, installing := NoInstall)
  }

  /** A trivial move: one file of a closed pick goes to the next level, and leaves no boundary file. */
  ghost predicate MoveLevels(m: Memory, w: Version) {
    exists level: nat, f: File ::
      && level + 1 < NUM_LEVELS && f in m.levels[level]
        && ClosedPick(m.levels, level, {f}, {}, f.smallest.user, f.largest.user)
      && Installed(m.levels, level, {f}, {}, {f}, w) && !exists g :: IsBoundaryFile(m.levels, level, f, g)
  }

  ghost predicate AppendMoveEdit(d: Disk, m: Memory, d': Disk, m': Memory)
    requires d.current in d.manifests
    requires 1 <= d.manifests[d.current].synced <= |d.manifests[d.current].points|
  {
    var p := SyncedPoint(d);
    && m.compacting == NoCompaction && m.flushing == NoFlush && m.installing == NoInstall
    && (exists w :: MoveLevels(m, w)
         && AppendPoint(d, d', Point(m.version, w, m.logNumber, m.nextFile, m.lastSequence, p.floor, p.flushed)))
    && m' == m.(installing := InstallMove)
  }

  ghost predicate FinishMove(d: Disk, m: Memory, d': Disk, m': Memory)
    requires PointsExist(d)
  {
    m.installing == InstallMove && SyncManifest(d, d')
      && m' == m.(levels := LastPoint(d).levels, installing := NoInstall)
  }

  ghost predicate AbandonCompaction(m: Memory, m': Memory) {
    && m.compacting.Merging? && m.installing == NoInstall
    && m' == m.(pending := m.pending - m.compacting.outputs, compacting := NoCompaction)
  }

  ghost predicate AcquireVersion(m: Memory, m': Memory) {
    m' == m.(liveVersions := m.liveVersions + {m.version})
  }

  ghost predicate ReleaseVersion(m: Memory, m': Memory, v: set<nat>) {
    && (m.compacting.Merging? ==> v != m.compacting.base)
    && m' == m.(liveVersions := m.liveVersions - {v})
  }

  /** AddLiveFiles, together with the pending outputs. */
  ghost predicate Live(m: Memory, n: nat) {
    n in m.version || n in m.pending || exists v :: v in m.liveVersions && n in v
  }

  /** DeleteObsoleteFiles: one file that its keep test rejects. The background thread runs it
      after LogAndApply has returned. */
  ghost predicate DeleteObsolete(d: Disk, m: Memory, d': Disk) {
    && m.installing == NoInstall && m.flushing == NoFlush
    && ((exists n :: n in d.logs && n < m.logNumber && d' == d.(logs := d.logs - {n}))
      || (exists n :: n in d.manifests && n < d.current && d' == d.(manifests := d.manifests - {n}))
      || (exists n :: n in d.tables && !Live(m, n) && d' == d.(tables := d.tables - {n})))
  }

  /** A step that leaves the logs and the point's tables alone leaves the point good. */
  lemma PointFrame(d: Disk, d': Disk, p: Point, acked: set<Group>, issued: set<Group>)
    requires PointGood(d, p, acked, issued)
    requires d'.logs == d.logs && d'.current == d.current
    requires forall n :: n in p.tables ==> n in d'.tables && d'.tables[n] == d.tables[n]
    ensures PointGood(d', p, acked, issued)
  {
    ContentUnchanged(d.tables, d'.tables, p.tables);
  }

  lemma AppendLogs(d: Disk, d': Disk, f: nat, g: Group, low: nat)
    requires f in d.logs && low <= f && d.logs[f].synced <= |d.logs[f].records|
    requires d' == WithLog(d, f, d.logs[f].(records := d.logs[f].records + [g]))
    ensures LogsFrom(d'.logs, low) == LogsFrom(d.logs, low) + {g}
    ensures SyncedFrom(d'.logs, low) == SyncedFrom(d.logs, low)
  {
    var log, log' := d.logs[f], d'.logs[f];
    assert log'.records[|log.records|] == g;
    forall h | h in LogsFrom(d.logs, low) ensures h in LogsFrom(d'.logs, low) {
      var n, i :| n in d.logs && low <= n && 0 <= i < |d.logs[n].records| && d.logs[n].records[i] == h;
      assert d'.logs[n].records[i] == h;
    }
    forall h | h in LogsFrom(d'.logs, low) ensures h in LogsFrom(d.logs, low) + {g} {
      var n, i :| n in d'.logs && low <= n && 0 <= i < |d'.logs[n].records| && d'.logs[n].records[i] == h;
      assert (n == f && i == |log.records|) || d.logs[n].records[i] == h;
    }
    forall h | h in SyncedFrom(d.logs, low) ensures h in SyncedFrom(d'.logs, low) {
      var n, i :| n in d.logs && low <= n && 0 <= i < |d.logs[n].records| && i < d.logs[n].synced
        && d.logs[n].records[i] == h;
      assert d'.logs[n].records[i] == h;
    }
  }

  lemma LogGroupsFrame(logs: map<nat, Log>, logs': map<nat, Log>, low: nat, high: nat)
    requires forall n: nat :: low <= n < high ==> (n in logs <==> n in logs')
    requires forall n :: n in logs && low <= n < high ==> logs[n].records == logs'[n].records
    ensures LogGroups(logs', low, high) == LogGroups(logs, low, high)
  {
    forall g | g in LogGroups(logs, low, high) ensures g in LogGroups(logs', low, high) {
      var n, i :| n in logs && low <= n < high && 0 <= i < |logs[n].records| && logs[n].records[i] == g;
      assert logs'[n].records[i] == g;
    }
  }

  lemma AppendKeepsPoint(d: Disk, d': Disk, f: nat, g: Group, p: Point, acked: set<Group>, issued: set<Group>)
    requires PointGood(d, p, acked, issued)
    requires f in d.logs && p.logNumber <= f && d.logs[f].synced <= |d.logs[f].records|
    requires d' == WithLog(d, f, d.logs[f].(records := d.logs[f].records + [g]))
    requires AllNewer(g, Ops(p.flushed))
    ensures PointGood(d', p, acked, issued + {g})
  {
    AppendLogs(d, d', f, g, p.logNumber);
    assert Ops(LogsFrom(d.logs, p.logNumber) + {g}) == Ops(LogsFrom(d.logs, p.logNumber)) + g;
  }

  /** A new group is newer than every point, and so than every group still in the logs. */
  lemma NewGroup(d: Disk, m: Memory, acked: set<Group>, issued: set<Group>, g: Group)
    requires RunningGood(d, m, acked, issued) && m.writing == NoWrite
    requires DistinctSequences(g) && forall e :: e in g ==> m.lastSequence < e.key.sequence
    ensures AllNewer(g, Ops(issued)) && DistinctSequences(Ops(issued + {g}))
    ensures AllNewer(g, Ops(SyncedPoint(d).flushed)) && AllNewer(g, Ops(LastPoint(d).flushed))
    ensures SyncedPoint(d).logNumber <= m.logfileNumber && LastPoint(d).logNumber <= m.logfileNumber
  {
    assert issued == SyncedPoint(d).flushed + ImmGroups(m) + m.mem;
    assert Ops(issued + {g}) == Ops(issued) + g;
    OpsMonotone(SyncedPoint(d).flushed, issued);
    OpsMonotone(LastPoint(d).flushed, issued);
  }

  lemma AppendDisk(d: Disk, f: nat, acked: set<Group>, issued: set<Group>, d': Disk, g: Group)
    requires DiskGood(d, acked, issued) && f in d.logs
    requires d' == WithLog(d, f, d.logs[f].(records := d.logs[f].records + [g]))
    requires DistinctSequences(Ops(issued + {g}))
    requires AllNewer(g, Ops(SyncedPoint(d).flushed)) && AllNewer(g, Ops(LastPoint(d).flushed))
    requires SyncedPoint(d).logNumber <= f && LastPoint(d).logNumber <= f
    ensures DiskGood(d', acked, issued + {g})
  {
    AppendKeepsPoint(d, d', f, g, SyncedPoint(d), acked, issued);
    AppendKeepsPoint(d, d', f, g, LastPoint(d), acked, issued);
  }

  lemma AppendPlaces(d: Disk, m: Memory, issued: set<Group>, flushed: set<Group>, d': Disk, m': Memory,
                     issued': set<Group>, g: Group, sync: bool)
    requires GroupsPlaced(d, m, issued, flushed) && AppendGroup(d, m, issued, d', m', issued', g, sync)
    requires m.logfileNumber in d.logs && d.logs[m.logfileNumber].synced <= |d.logs[m.logfileNumber].records|
    requires AllNewer(g, Ops(issued))
    ensures GroupsPlaced(d', m', issued', flushed)
  {
    AppendLogs(d, d', m.logfileNumber, g, m.logfileNumber);
    LogGroupsFrame(d.logs, d'.logs, m.logNumber, m.logfileNumber);
    assert Ops({g}) == g;
    assert issued == flushed + ImmGroups(m) + m.mem;
    assert ImmGroups(m') == ImmGroups(m);
  }

  /** What a step of the write path leaves as it is. */
  ghost predicate OnlyWrites(d: Disk, m: Memory, d': Disk, m': Memory) {
    && d'.tables == d.tables && d'.manifests == d.manifests && d'.current == d.current && d'.logs.Keys == d.logs.Keys
    && m.lastSequence <= m'.lastSequence
    && m' == m.(writing := m'.writing, mem := m'.mem, lastSequence := m'.lastSequence)
  }

  lemma WritesKeepRest(d: Disk, m: Memory, d': Disk, m': Memory)
    requires PointsExist(d) && ManifestGood(d, m) && NumbersGood(d, m) && FlushGood(d, m)
    requires CompactionGood(d, m, SyncedPoint(d).floor) && OnlyWrites(d, m, d', m')
    ensures PointsExist(d') && ManifestGood(d', m') && NumbersGood(d', m') && FlushGood(d', m')
    ensures CompactionGood(d', m', SyncedPoint(d').floor)
    ensures SyncedPoint(d') == SyncedPoint(d) && LastPoint(d') == LastPoint(d)
  {
    assert ImmGroups(m') == ImmGroups(m);
    assert forall n :: n in d'.logs ==> n in d.logs.Keys;
    assert m.logfileNumber in d'.logs.Keys;
  }

  lemma AppendStep(d: Disk, m: Memory, acked: set<Group>, issued: set<Group>, d': Disk, m': Memory, issued': set<Group>,
                   g: Group, sync: bool)
    requires RunningGood(d, m, acked, issued) && AppendGroup(d, m, issued, d', m', issued', g, sync)
    ensures RunningGood(d', m', acked, issued')
  {
    WritesKeepRest(d, m, d', m');
    NewGroup(d, m, acked, issued, g);
    AppendDisk(d, m.logfileNumber, acked, issued, d', g);
    AppendPlaces(d, m, issued, SyncedPoint(d).flushed, d', m', issued', g, sync);
  }

  lemma SyncLogs(d: Disk, f: nat, d': Disk, low: nat)
    requires f in d.logs && d.logs[f].synced <= |d.logs[f].records|
    requires d' == WithLog(d, f, d.logs[f].(synced := |d.logs[f].records|))
    ensures LogsFrom(d'.logs, low) == LogsFrom(d.logs, low)
    ensures SyncedFrom(d.logs, low) <= SyncedFrom(d'.logs, low)
    ensures forall i :: 0 <= i < |d.logs[f].records| && low <= f ==> d.logs[f].records[i] in SyncedFrom(d'.logs, low)
  {
    forall h | h in LogsFrom(d.logs, low) ensures h in LogsFrom(d'.logs, low) {
      var n, i :| n in d.logs && low <= n && 0 <= i < |d.logs[n].records| && d.logs[n].records[i] == h;
      assert d'.logs[n].records[i] == h;
    }
    forall h | h in SyncedFrom(d.logs, low) ensures h in SyncedFrom(d'.logs, low) {
      var n, i :| n in d.logs && low <= n && 0 <= i < |d.logs[n].records| && i < d.logs[n].synced
        && d.logs[n].records[i] == h;
      assert d'.logs[n].records[i] == h;
    }
    forall i | 0 <= i < |d.logs[f].records| && low <= f ensures d.logs[f].records[i] in SyncedFrom(d'.logs, low) {
      assert d'.logs[f].records[i] == d.logs[f].records[i];
    }
  }

  lemma SyncDisk(d: Disk, f: nat, acked: set<Group>, issued: set<Group>, d': Disk)
    requires DiskGood(d, acked, issued) && f in d.logs
    requires d' == WithLog(d, f, d.logs[f].(synced := |d.logs[f].records|))
    ensures DiskGood(d', acked, issued)
  {
    SyncLogs(d, f, d', SyncedPoint(d).logNumber);
    SyncLogs(d, f, d', LastPoint(d).logNumber);
  }

  lemma SyncPlaces(d: Disk, m: Memory, issued: set<Group>, flushed: set<Group>, d': Disk, m': Memory)
    requires GroupsPlaced(d, m, issued, flushed) && SyncLog(d, m, d', m')
    requires d.logs[m.logfileNumber].synced <= |d.logs[m.logfileNumber].records|
    requires forall n :: n in d.logs ==> n <= m.logfileNumber
    ensures GroupsPlaced(d', m', issued, flushed)
  {
    SyncLogs(d, m.logfileNumber, d', m.logfileNumber);
    LogGroupsFrame(d.logs, d'.logs, m.logNumber, m.logfileNumber);
    assert m.writing.group in LogsFrom(d.logs, m.logfileNumber);
    assert ImmGroups(m') == ImmGroups(m) && WritingGroups(m') == WritingGroups(m);
  }

  lemma SyncStep(d: Disk, m: Memory, acked: set<Group>, issued: set<Group>, d': Disk, m': Memory)
    requires RunningGood(d, m, acked, issued) && SyncLog(d, m, d', m')
    ensures RunningGood(d', m', acked, issued)
  {
    WritesKeepRest(d, m, d', m');
    SyncDisk(d, m.logfileNumber, acked, issued, d');
    SyncPlaces(d, m, issued, SyncedPoint(d).flushed, d', m');
  }

  lemma AckDisk(d: Disk, f: nat, acked: set<Group>, issued: set<Group>, g: Group)
    requires DiskGood(d, acked, issued) && g in SyncedFrom(d.logs, f)
    requires SyncedPoint(d).logNumber <= f && LastPoint(d).logNumber <= f
    ensures DiskGood(d, acked + {g}, issued)
  {
  }

  /** A group on top of everything else joins the memtable. */
  lemma GroupJoins(older: set<Group>, mem: set<Group>, g: Group, last: nat)
    requires AllNewer(Ops(mem), Ops(older)) && AllNewer(Ops({g}), Ops(older + mem))
    requires Below(Ops(older + mem), last) && Below(Ops({g}), last + |g|)
    ensures AllNewer(Ops(mem + {g}), Ops(older)) && Below(Ops(older + (mem + {g})), last + |g|)
  {
    OpsUnion(mem, {g});
    OpsUnion(older, mem);
    OpsUnion(older, mem + {g});
  }

  lemma FinishPlaces(d: Disk, m: Memory, issued: set<Group>, flushed: set<Group>, acked: set<Group>, m': Memory,
                     acked': set<Group>)
    requires GroupsPlaced(d, m, issued, flushed) && FinishWrite(m, acked, m', acked')
    ensures GroupsPlaced(d, m', issued, flushed)
  {
    var g, older := m.writing.group, flushed + ImmGroups(m);
    GroupJoins(older, m.mem, g, m.lastSequence);
    assert ImmGroups(m') == ImmGroups(m) && WritingGroups(m) == {g} && WritingGroups(m') == {};
    assert m.mem + {g} == m'.mem + {};
    assert issued == flushed + ImmGroups(m') + m'.mem + WritingGroups(m');
  }

  lemma FinishWriteStep(d: Disk, m: Memory, acked: set<Group>, issued: set<Group>, m': Memory, acked': set<Group>)
    requires RunningGood(d, m, acked, issued) && FinishWrite(m, acked, m', acked')
    ensures RunningGood(d, m', acked', issued)
  {
    WritesKeepRest(d, m, d, m');
    FinishPlaces(d, m, issued, SyncedPoint(d).flushed, acked, m', acked');
    if m.writing.sync {
      AckDisk(d, m.logfileNumber, acked, issued, m.writing.group);
    } else {
      assert acked' == acked;
    }
  }
}
