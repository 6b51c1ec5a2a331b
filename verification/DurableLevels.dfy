// How the tables on disk lie in levels, through flushes, compactions, moves and recovery.

module DurableLevels {
  import opened DbFormat
  import opened Meaning
  import opened Versions
  import opened DropRule
  import opened CompactionMeaning
  import opened FlushLevel
  import opened CompactionWindow
  import opened Disks
  import opened DurableRun
  import opened DurableSteps
  import opened DurableRecovery
  import opened LogOrder

  /** The files of the levels are these tables, each once. */
  ghost predicate Arranged(tables: map<nat, Table>, version: set<nat>, v: Version) {
    AreTables(tables, version, v) && AllThere(version, v) && OneEach(v)
  }

  ghost predicate AreTables(tables: map<nat, Table>, version: set<nat>, v: Version) {
    forall l, f :: 0 <= l < NUM_LEVELS && f in v[l] ==> f.number in version && IsTable(tables, f)
  }

  ghost predicate AllThere(version: set<nat>, v: Version) {
    forall n :: n in version ==> HasNumber(v, n)
  }

  ghost predicate IsTable(tables: map<nat, Table>, f: File) {
    f.number in tables && tables[f.number].entries == EntrySet(f.entries)
  }

  ghost predicate HasNumber(v: Version, n: nat) {
    exists l, f :: 0 <= l < NUM_LEVELS && f in v[l] && f.number == n
  }

  ghost predicate OneEach(v: Version) {
    forall l, m, f, g ::
      0 <= l < NUM_LEVELS && 0 <= m < NUM_LEVELS && f in v[l] && g in v[m] && f.number == g.number ==> l == m && f == g
  }

  lemma ArrangedContent(tables: map<nat, Table>, version: set<nat>, v: Version)
    requires Arranged(tables, version, v)
    ensures Content(tables, version) == AllEntries(v)
  {
    forall n, e | n in version && n in tables && e in tables[n].entries ensures e in AllEntries(v) {
      assert HasNumber(v, n);
      var l, f :| 0 <= l < NUM_LEVELS && f in v[l] && f.number == n;
      assert IsTable(tables, f);
    }
    forall l, f, e | 0 <= l < NUM_LEVELS && f in v[l] && e in f.entries ensures e in Content(tables, version) {
      assert IsTable(tables, f) && e in EntrySet(f.entries);
    }
  }

  lemma ArrangedFrame(tables: map<nat, Table>, tables': map<nat, Table>, version: set<nat>, v: Version)
    requires Arranged(tables, version, v) && forall n :: n in version ==>
      n in tables' && n in tables && tables'[n].entries == tables[n].entries
    ensures Arranged(tables', version, v)
  {
  }

  lemma ArrangedFlush(tables: map<nat, Table>, version: set<nat>, v: Version, level: nat, f: File, w: Version)
    requires Arranged(tables, version, v) && level < NUM_LEVELS && Flushed(v, level, f, w)
    requires f.number !in version && IsTable(tables, f)
    ensures Arranged(tables, version + {f.number}, w)
  {
    FileInFlushed(v, level, f, w);
    NumberIsNew(tables, version, v, f);
    FlushedTables(tables, version, v, level, f, w);
    assert AllThere(version + {f.number}, w) by {
      forall n | n in version + {f.number} ensures HasNumber(w, n) {
        FlushedNumber(v, level, f, w, n);
      }
    }
    OneMoreEach(v, level, f, w);
  }

  lemma OneMoreEach(v: Version, level: nat, f: File, w: Version)
    requires OneEach(v) && level < NUM_LEVELS
      && forall l, g :: 0 <= l < NUM_LEVELS && g in v[l] ==> g.number != f.number
    requires forall l, g :: 0 <= l < NUM_LEVELS && g in w[l] ==> g in v[l] || (l == level && g == f)
    ensures OneEach(w)
  {
  }

  lemma NumberIsNew(tables: map<nat, Table>, version: set<nat>, v: Version, f: File)
    requires Arranged(tables, version, v) && f.number !in version
    ensures forall l, g :: 0 <= l < NUM_LEVELS && g in v[l] ==> g.number != f.number
  {
  }

  lemma FlushedTables(tables: map<nat, Table>, version: set<nat>, v: Version, level: nat, f: File, w: Version)
    requires Arranged(tables, version, v) && IsTable(tables, f)
    requires forall l, g :: 0 <= l < NUM_LEVELS && g in w[l] ==> g in v[l] || (l == level && g == f)
    ensures AreTables(tables, version + {f.number}, w)
  {
  }

  lemma FlushedNumber(v: Version, level: nat, f: File, w: Version, n: nat)
    requires level < NUM_LEVELS && Flushed(v, level, f, w) && (HasNumber(v, n) || n == f.number)
    ensures HasNumber(w, n)
  {
    if n == f.number {
      assert f in FilesOf(w[level]);
    } else {
      var l, g :| 0 <= l < NUM_LEVELS && g in v[l] && g.number == n;
      assert g in FilesOf(v[l]) && g in FilesOf(w[l]);
    }
  }

  /** A file of w that is not an output is where it was, and no input. */
  lemma InstalledFile(v: Version, level: nat, in0: set<File>, in1: set<File>, outputs: set<File>, w: Version, l: nat,
                      f: File)
    requires level + 1 < NUM_LEVELS && Installed(v, level, in0, in1, outputs, w) && l < NUM_LEVELS && f in w[l]
    ensures (l == level + 1 && f in outputs)
      || (f in v[l] && !(l == level && f in in0) && !(l == level + 1 && f in in1))
  {
    assert f in FilesOf(w[l]);
  }

  lemma KeptFile(v: Version, level: nat, in0: set<File>, in1: set<File>, outputs: set<File>, w: Version, l: nat,
                 f: File)
    requires level + 1 < NUM_LEVELS && Installed(v, level, in0, in1, outputs, w) && l < NUM_LEVELS && f in v[l]
    requires !(l == level && f in in0) && !(l == level + 1 && f in in1)
    ensures f in w[l]
  {
    assert f in FilesOf(v[l]) && f in FilesOf(w[l]);
  }

  ghost predicate OwnNumbers(files: set<File>) {
    forall f, g :: f in files && g in files && f.number == g.number ==> f == g
  }

  /** The outputs, under numbers of their own, in place of the inputs. */
  lemma ArrangedInstall(tables: map<nat, Table>, version: set<nat>, v: Version, level: nat, in0: set<File>,
                        in1: set<File>,
                        outputs: set<File>, w: Version)
    requires Arranged(tables, version, v) && level + 1 < NUM_LEVELS && in0 <= FilesOf(v[level])
      && in1 <= FilesOf(v[level + 1])
    requires Installed(v, level, in0, in1, outputs, w) && NumbersOf(outputs) !! version
    requires OwnNumbers(outputs)
    requires forall f :: f in outputs ==> IsTable(tables, f)
    ensures Arranged(tables, version - NumbersOf(in0 + in1) + NumbersOf(outputs), w)
  {
    var stayers := version - NumbersOf(in0 + in1);
    forall l, f | 0 <= l < NUM_LEVELS && f in w[l] ensures OutputOrStayer(v, level, outputs, stayers, l, f) {
      InstalledFile(v, level, in0, in1, outputs, w, l, f);
      if f in v[l] && !(l == level && f in in0) && !(l == level + 1 && f in in1) {
        NotAnInput(v, level, in0, in1, l, f);
      }
    }
    forall n | n in stayers + NumbersOf(outputs) ensures HasNumber(w, n) {
      InstalledNumber(tables, version, v, level, in0, in1, outputs, w, n);
    }
    OutputsOrStayers(v, w, level, outputs, stayers);
  }

  ghost predicate OutputOrStayer(v: Version, level: nat, outputs: set<File>, stayers: set<nat>, l: int, f: File)
    requires 0 <= l < NUM_LEVELS
  {
    (l == level + 1 && f in outputs) || (f in v[l] && f.number in stayers)
  }

  lemma OutputsOrStayers(v: Version, w: Version, level: nat, outputs: set<File>, stayers: set<nat>)
    requires level + 1 < NUM_LEVELS && OneEach(v) && NumbersOf(outputs) !! stayers
    requires OwnNumbers(outputs)
    requires forall l, f :: 0 <= l < NUM_LEVELS && f in w[l] ==> OutputOrStayer(v, level, outputs, stayers, l, f)
    ensures OneEach(w)
  {
    assert forall f :: f in outputs ==> f.number in NumbersOf(outputs);
  }

  lemma NotAnInput(v: Version, level: nat, in0: set<File>, in1: set<File>, l: nat, f: File)
    requires OneEach(v) && level + 1 < NUM_LEVELS && in0 <= FilesOf(v[level]) && in1 <= FilesOf(v[level + 1])
    requires l < NUM_LEVELS && f in v[l] && !(l == level && f in in0) && !(l == level + 1 && f in in1)
    ensures f.number !in NumbersOf(in0 + in1)
  {
    forall g | g in in0 + in1 ensures g.number != f.number {
      var m := if g in in0 then level else level + 1;
      assert g in FilesOf(v[m]);
    }
  }

  lemma InstalledNumber(tables: map<nat, Table>, version: set<nat>, v: Version, level: nat, in0: set<File>,
                        in1: set<File>,
                        outputs: set<File>, w: Version, n: nat)
    requires Arranged(tables, version, v) && level + 1 < NUM_LEVELS && Installed(v, level, in0, in1, outputs, w)
    requires n in version - NumbersOf(in0 + in1) + NumbersOf(outputs)
    ensures HasNumber(w, n)
  {
    if n in NumbersOf(outputs) {
      var f :| f in outputs && f.number == n;
      assert f in FilesOf(w[level + 1]);
    } else {
      assert HasNumber(v, n);
      var l, f :| 0 <= l < NUM_LEVELS && f in v[l] && f.number == n;
      assert f !in in0 + in1;
      KeptFile(v, level, in0, in1, outputs, w, l, f);
    }
  }

  lemma ArrangedMove(tables: map<nat, Table>, version: set<nat>, v: Version, level: nat, f: File, w: Version)
    requires Arranged(tables, version, v) && level + 1 < NUM_LEVELS && f in v[level]
      && Installed(v, level, {f}, {}, {f}, w)
    ensures Arranged(tables, version, w)
  {
    forall l, g | 0 <= l < NUM_LEVELS && g in w[l]
      ensures (l == level + 1 && g == f) || (g in v[l] && g.number != f.number) {
      InstalledFile(v, level, {f}, {}, {f}, w, l, g);
    }
    forall n | n in version ensures HasNumber(w, n) {
      MovedNumber(v, level, f, w, n);
    }
  }

  lemma MovedNumber(v: Version, level: nat, f: File, w: Version, n: nat)
    requires level + 1 < NUM_LEVELS && f in v[level] && Installed(v, level, {f}, {}, {f}, w) && HasNumber(v, n)
    ensures HasNumber(w, n)
  {
    var l, g :| 0 <= l < NUM_LEVELS && g in v[l] && g.number == n;
    if g == f {
      assert f in FilesOf(w[level + 1]);
    } else {
      KeptFile(v, level, {f}, {}, {f}, w, l, g);
    }
  }

  /** The tables of a point of the manifest, in good order. */
  ghost predicate PointLevels(d: Disk, p: Point) {
    Arranged(d.tables, p.tables, p.levels) && GoodVersion(p.levels)
  }

  /** A compaction under way still fits, and will when the flush being installed is there. */
  ghost predicate MergeReady(d: Disk, m: Memory)
    requires PointsExist(d)
  {
    m.compacting.Merging? ==>
      var c := m.compacting.merge;
      && StillFits(m.levels, c) && m.compacting.inputs == NumbersOf(c.in0 + c.in1)
      && (m.installing == InstallFlush ==> StillFits(LastPoint(d).levels, c))
  }

  /** The table being flushed has the largest number of level 0. */
  ghost predicate FlushNumber(m: Memory) {
    match m.flushing
    case NoFlush => true
    case Building(n) => forall g :: g in m.levels[0] ==> g.number < n
    case Built(tables) => forall n, g :: n in tables && g in m.levels[0] ==> g.number < n
  }

  ghost predicate RunningLevels(d: Disk, m: Memory) {
    PointsExist(d) && PointLevels(d, SyncedPoint(d)) && PointLevels(d, LastPoint(d)) && MergeReady(d, m)
      && FlushNumber(m)
  }

  ghost predicate LevelsGood(s: State) {
    match s.phase
    case Down => PointsExist(s.disk) && PointLevels(s.disk, LastPoint(s.disk))
    case Opening(r) =>
      && PointsExist(s.disk) && PointLevels(s.disk, LastPoint(s.disk))
      && Arranged(s.disk.tables, LastPoint(s.disk).tables + r.newTables, r.levels) && GoodVersion(r.levels)
    case Running(m) => RunningLevels(s.disk, m)
  }

  /** What a point stands for has every sequence number once. */
  lemma PointIsDistinct(d: Disk, p: Point, acked: set<Group>, issued: set<Group>)
    requires PointGood(d, p, acked, issued) && DistinctSequences(Ops(issued)) && Arranged(d.tables, p.tables, p.levels)
    ensures DistinctSequences(AllEntries(p.levels)) && AllEntries(p.levels) <= Ops(p.flushed)
  {
    ArrangedContent(d.tables, p.tables, p.levels);
    OpsMonotone(p.flushed, issued);
  }

  lemma PointFrameLevels(d: Disk, d': Disk, p: Point)
    requires PointLevels(d, p) && forall n :: n in p.tables ==>
      n in d.tables && n in d'.tables && d'.tables[n] == d.tables[n]
    ensures PointLevels(d', p)
  {
    ArrangedFrame(d.tables, d'.tables, p.tables, p.levels);
  }

  lemma CrashKeepsLevels(s: State, s': State)
    requires Inv(s) && LevelsGood(s) && Crash(s, s')
    ensures LevelsGood(s')
  {
    InvHasDisk(s);
    CrashedPoint(s.disk, s'.disk);
    assert PointLevels(s.disk, SyncedPoint(s.disk)) && PointLevels(s.disk, LastPoint(s.disk));
    PointFrameLevels(s.disk, s'.disk, LastPoint(s'.disk));
  }

  /** A crash leaves the manifest at its last synced point or at one more, with the tables of either. */
  lemma CrashedPoint(d: Disk, d': Disk)
    requires PointsExist(d) && CrashOf(d, d') && d'.manifests[d'.current].points != []
    requires |d.manifests[d.current].points| <= d.manifests[d.current].synced + 1
    requires forall n :: n in SyncedPoint(d).tables || n in LastPoint(d).tables ==> n in d.tables && d.tables[n].synced
    ensures PointsExist(d') && (LastPoint(d') == SyncedPoint(d) || LastPoint(d') == LastPoint(d))
    ensures forall n :: n in LastPoint(d').tables ==> n in d.tables && n in d'.tables && d'.tables[n] == d.tables[n]
  {
    var m, k := d.manifests[d.current], d'.manifests[d'.current];
    assert |k.points| == m.synced || |k.points| == |m.points|;
  }

  /** The memtable's table is newer than all there is, and numbered last. */
  lemma FlushedTableFits(d: Disk, m: Memory, acked: set<Group>, issued: set<Group>, f: File, level: nat,
                         maxFileSize: nat)
    requires RunningGood(d, m, acked, issued) && RunningLevels(d, m) && m.flushing.Built?
      && m.flushing.tables == {f.number}
    requires ValidFile(f) && EntrySet(f.entries) == Ops(ImmGroups(m))
    requires IsPickedLevel(m.levels, f.smallest.user, f.largest.user, maxFileSize, level)
    ensures Fits(m.levels, level, f) && f.number !in m.version
    ensures IsTable(d.tables, f)
  {
    var p := SyncedPoint(d);
    PointIsDistinct(d, p, acked, issued);
    forall l, g | 0 <= l < NUM_LEVELS && g in m.levels[l] ensures NewerThan(f, g) {
      forall x, e | x in f.entries && e in g.entries ensures x.key.sequence > e.key.sequence {
        assert x in EntrySet(f.entries) && e in AllEntries(m.levels);
      }
    }
    assert Content(d.tables, {f.number}) == d.tables[f.number].entries;
    TableIsNew(d, m, f);
  }

  lemma TableIsNew(d: Disk, m: Memory, f: File)
    requires Arranged(d.tables, m.version, m.levels) && AgeOrdered(m.levels) && ValidFile(f)
    requires IsTable(d.tables, f)
    requires forall l, g :: 0 <= l < NUM_LEVELS && g in m.levels[l] ==> NewerThan(f, g)
    ensures f.number !in m.version
  {
    forall l, g | 0 <= l < NUM_LEVELS && g in m.levels[l] ensures g.number != f.number {
      assert NewerThan(f, g) && f.entries[0] in f.entries;
      assert f.entries[0] !in g.entries;
      assert f.entries[0] in EntrySet(f.entries) && f.entries[0] !in EntrySet(g.entries);
    }
    assert !HasNumber(m.levels, f.number);
  }

  lemma FlushEditLevels(d: Disk, m: Memory, acked: set<Group>, issued: set<Group>, w: Version)
    requires RunningGood(d, m, acked, issued) && RunningLevels(d, m) && m.flushing.Built? && m.installing == NoInstall
    requires FlushLevels(m, w) && LeavesRoom(m, w)
    ensures Arranged(d.tables, m.version + m.flushing.tables, w) && GoodVersion(w)
    ensures m.compacting.Merging? ==> StillFits(w, m.compacting.merge)
  {
    if m.flushing.tables == {} {
      assert m.version + {} == m.version;
    } else {
      var f, level, maxFileSize := FlushedFile(m, w);
      FlushedTableFits(d, m, acked, issued, f, level, maxFileSize);
      FittingFlush(d.tables, m.version, m.levels, level, f, w);
      FlushUnderMerges(d, m, level, f, w);
    }
  }

  lemma FlushedFile(m: Memory, w: Version) returns (f: File, level: nat, maxFileSize: nat)
    requires m.flushing.Built? && m.flushing.tables != {} && FlushLevels(m, w)
    ensures m.flushing.tables == {f.number} && EntrySet(f.entries) == Ops(ImmGroups(m)) && ValidFile(f)
    ensures IsPickedLevel(m.levels, f.smallest.user, f.largest.user, maxFileSize, level)
      && Flushed(m.levels, level, f, w)
  {
    f, level, maxFileSize :|
      && m.flushing.tables == {f.number} && EntrySet(f.entries) == Ops(ImmGroups(m)) && ValidFile(f)
      && IsPickedLevel(m.levels, f.smallest.user, f.largest.user, maxFileSize, level) && Flushed(m.levels, level, f, w);
  }

  lemma FlushUnderMerges(d: Disk, m: Memory, level: nat, f: File, w: Version)
    requires PointsExist(d) && MergeReady(d, m) && LeavesRoom(m, w) && Fits(m.levels, level, f)
      && Flushed(m.levels, level, f, w)
    ensures m.compacting.Merging? ==> StillFits(w, m.compacting.merge)
  {
    if m.compacting.Merging? {
      FlushedIsNew(m.levels, m.compacting.merge, level, f);
      assert f in FilesOf(w[level]);
      FlushKeepsFit(m.levels, m.compacting.merge, level, f, w);
    }
  }

  lemma FittingFlush(tables: map<nat, Table>, version: set<nat>, v: Version, level: nat, f: File, w: Version)
    requires Arranged(tables, version, v) && GoodVersion(v) && Fits(v, level, f) && Flushed(v, level, f, w)
    requires f.number !in version && IsTable(tables, f)
    ensures Arranged(tables, version + {f.number}, w) && GoodVersion(w)
  {
    ArrangedFlush(tables, version, v, level, f, w);
    FlushKeepsInvariants(v, level, f, w);
  }

  lemma AppendFlushLevels(d: Disk, m: Memory, acked: set<Group>, issued: set<Group>, d': Disk, m': Memory)
    requires RunningGood(d, m, acked, issued) && RunningLevels(d, m) && AppendFlushEdit(d, m, d', m')
    ensures RunningLevels(d', m')
  {
    var w := LastPoint(d').levels;
    FlushEditLevels(d, m, acked, issued, w);
    assert SyncedPoint(d') == SyncedPoint(d);
  }

  lemma FinishLevels(d: Disk, m: Memory, acked: set<Group>, issued: set<Group>, d': Disk, m': Memory)
    requires RunningGood(d, m, acked, issued) && RunningLevels(d, m)
    requires FinishFlush(d, m, d', m') || FinishCompaction(d, m, d', m') || FinishMove(d, m, d', m')
    ensures RunningLevels(d', m')
  {
    SyncedIsLast(d, d');
    PointFrameLevels(d, d', LastPoint(d));
    assert m'.levels == LastPoint(d).levels;
  }

  lemma SyncedIsLast(d: Disk, d': Disk)
    requires PointsExist(d) && SyncManifest(d, d')
    ensures PointsExist(d') && SyncedPoint(d') == LastPoint(d') == LastPoint(d) && d'.tables == d.tables
  {
  }

  /** The outputs of the merge in the current levels: every answer stays, and so does good order. */
  lemma MergeEditLevels(d: Disk, m: Memory, acked: set<Group>, issued: set<Group>, outputs: seq<File>,
                        numbers: nat -> nat, w: Version)
    requires RunningGood(d, m, acked, issued) && RunningLevels(d, m) && m.compacting.Merging?
      && OutputsInstalled(d, m, outputs, numbers, w)
    ensures Arranged(d.tables, m.version - m.compacting.inputs + m.compacting.outputs, w) && GoodVersion(w)
    ensures MergeAnswers(d, m)
  {
    var c := m.compacting.merge;
    PointIsDistinct(d, SyncedPoint(d), acked, issued);
    FittingInstall(m.levels, c, outputs, numbers, w);
    OutputsArranged(d, m, outputs, numbers, w);
    SameContent(d, m, w);
  }

  lemma OutputsArranged(d: Disk, m: Memory, outputs: seq<File>, numbers: nat -> nat, w: Version)
    requires m.compacting.Merging? && InputsThere(m.levels, m.compacting.merge)
      && OutputsInstalled(d, m, outputs, numbers, w)
    requires m.compacting.inputs == NumbersOf(m.compacting.merge.in0 + m.compacting.merge.in1)
    requires Arranged(d.tables, m.version, m.levels) && m.compacting.outputs !! m.version
    ensures Arranged(d.tables, m.version - m.compacting.inputs + m.compacting.outputs, w)
  {
    var c := m.compacting.merge;
    ArrangedInstall(d.tables, m.version, m.levels, c.level, c.in0, c.in1, FilesOf(outputs), w);
  }

  lemma SameContent(d: Disk, m: Memory, w: Version)
    requires m.compacting.Merging? && Arranged(d.tables, m.version, m.levels)
    requires Arranged(d.tables, m.version - m.compacting.inputs + m.compacting.outputs, w)
    requires SameAnswers(AllEntries(w), AllEntries(m.levels), m.compacting.merge.snapshot)
      && AllEntries(w) <= AllEntries(m.levels)
    ensures MergeAnswers(d, m)
  {
    ArrangedContent(d.tables, m.version, m.levels);
    ArrangedContent(d.tables, m.version - m.compacting.inputs + m.compacting.outputs, w);
  }

  /** An edit appended to the manifest, with its levels in order. */
  lemma AppendedLevels(d: Disk, m: Memory, d': Disk, m': Memory, q: Point)
    requires RunningLevels(d, m) && Settled(d) && AppendPoint(d, d', q) && PointLevels(d, q)
    requires m' == m.(installing := m'.installing) && m'.installing != InstallFlush
    ensures RunningLevels(d', m') && LastPoint(d') == q
  {
    assert SyncedPoint(d') == SyncedPoint(d);
  }

  lemma AppendCompactionLevels(d: Disk, m: Memory, acked: set<Group>, issued: set<Group>, d': Disk, m': Memory)
    requires RunningGood(d, m, acked, issued) && RunningLevels(d, m) && AppendCompactionEdit(d, m, d', m')
    ensures RunningLevels(d', m') && MergeAnswers(d, m)
  {
    var outputs, numbers, w :| OutputsInstalled(d, m, outputs, numbers, w)
      && AppendPoint(d, d', CompactionPoint(m, SyncedPoint(d), w));
    MergeEditLevels(d, m, acked, issued, outputs, numbers, w);
    AppendedLevels(d, m, d', m', CompactionPoint(m, SyncedPoint(d), w));
  }

  lemma MoveEditLevels(d: Disk, m: Memory, acked: set<Group>, issued: set<Group>, w: Version)
    requires RunningGood(d, m, acked, issued) && RunningLevels(d, m) && MoveLevels(m, w)
    ensures Arranged(d.tables, m.version, w) && GoodVersion(w)
  {
    var level, f := MovedFile(m, w);
    PointIsDistinct(d, SyncedPoint(d), acked, issued);
    TrivialMove(m.levels, level, f, w);
    ArrangedMove(d.tables, m.version, m.levels, level, f, w);
  }

  lemma MovedFile(m: Memory, w: Version) returns (level: nat, f: File)
    requires MoveLevels(m, w)
    ensures level + 1 < NUM_LEVELS && f in m.levels[level]
      && ClosedPick(m.levels, level, {f}, {}, f.smallest.user, f.largest.user)
    ensures Installed(m.levels, level, {f}, {}, {f}, w) && !exists g :: IsBoundaryFile(m.levels, level, f, g)
  {
    level, f :|
      && level + 1 < NUM_LEVELS && f in m.levels[level]
        && ClosedPick(m.levels, level, {f}, {}, f.smallest.user, f.largest.user)
      && Installed(m.levels, level, {f}, {}, {f}, w) && !exists g :: IsBoundaryFile(m.levels, level, f, g);
  }

  lemma AppendMoveLevels(d: Disk, m: Memory, acked: set<Group>, issued: set<Group>, d': Disk, m': Memory)
    requires RunningGood(d, m, acked, issued) && RunningLevels(d, m) && AppendMoveEdit(d, m, d', m')
    ensures RunningLevels(d', m')
  {
    var w := MoveTarget(d, m, d', m');
    MoveEditLevels(d, m, acked, issued, w);
    NoInstallIsSettled(d, m, acked, issued);
    AppendedMove(d, m, d', m', w);
  }

  lemma AppendedMove(d: Disk, m: Memory, d': Disk, m': Memory, w: Version)
    requires RunningLevels(d, m) && Settled(d) && AppendPoint(d, d', MovePoint(m, SyncedPoint(d), w))
      && m' == m.(installing := InstallMove)
    requires Arranged(d.tables, m.version, w) && GoodVersion(w)
    ensures RunningLevels(d', m')
  {
    AppendedLevels(d, m, d', m', MovePoint(m, SyncedPoint(d), w));
  }

  lemma MoveTarget(d: Disk, m: Memory, d': Disk, m': Memory) returns (w: Version)
    requires PointsExist(d) && AppendMoveEdit(d, m, d', m')
    ensures MoveLevels(m, w) && AppendPoint(d, d', MovePoint(m, SyncedPoint(d), w))
    ensures m.installing == NoInstall && m' == m.(installing := InstallMove)
  {
    w :| MoveLevels(m, w) && AppendPoint(d, d', MovePoint(m, SyncedPoint(d), w));
  }

  lemma NoInstallIsSettled(d: Disk, m: Memory, acked: set<Group>, issued: set<Group>)
    requires RunningGood(d, m, acked, issued) && m.installing == NoInstall
    ensures Settled(d)
  {
  }

  /** Steps in memory: a flush gets the next number, a compaction starts from the current levels. */
  lemma InMemoryLevels(d: Disk, m: Memory, acked: set<Group>, issued: set<Group>, m': Memory)
    requires RunningGood(d, m, acked, issued) && RunningLevels(d, m) && InMemory(m, m', SyncedPoint(d).floor)
    ensures RunningLevels(d, m')
  {
    if c :| StartCompaction(m, SyncedPoint(d).floor, m', c) {
      StartLevels(d, m, m', c);
    } else {
      FlushNumberKept(d, m, m', SyncedPoint(d).floor);
      assert MergeReady(d, m');
    }
  }

  lemma StartLevels(d: Disk, m: Memory, m': Memory, c: Merge)
    requires RunningLevels(d, m) && m.levels == SyncedPoint(d).levels
    requires StartCompaction(m, SyncedPoint(d).floor, m', c)
    ensures RunningLevels(d, m')
  {
    StartFits(c);
  }

  lemma FlushNumberKept(d: Disk, m: Memory, m': Memory, floor: nat)
    requires FlushNumber(m) && Arranged(d.tables, m.version, m.levels) && TablesExist(d.tables, m.version, m.nextFile)
    requires InMemory(m, m', floor)
    ensures FlushNumber(m')
  {
    assert forall g :: g in m.levels[0] ==> g.number in m.version;
  }

  /** Steps that leave levels, points and the tables they name alone. */
  lemma FrameLevels(d: Disk, m: Memory, d': Disk, m': Memory)
    requires RunningLevels(d, m) && TablesExist(d.tables, SyncedPoint(d).tables + LastPoint(d).tables, m.nextFile)
    requires d'.current == d.current && d.current in d'.manifests && d'.manifests[d.current] == d.manifests[d.current]
    requires forall n :: n in SyncedPoint(d).tables || n in LastPoint(d).tables ==>
      n in d'.tables && d'.tables[n] == d.tables[n]
    requires m'.levels == m.levels && m'.compacting == m.compacting && m'.installing == m.installing && FlushNumber(m')
    ensures RunningLevels(d', m')
  {
    PointFrameLevels(d, d', SyncedPoint(d));
    PointFrameLevels(d, d', LastPoint(d));
  }

  lemma PointTables(d: Disk, m: Memory, acked: set<Group>, issued: set<Group>)
    requires RunningGood(d, m, acked, issued)
    ensures TablesExist(d.tables, SyncedPoint(d).tables + LastPoint(d).tables, m.nextFile)
    ensures m.installing == NoInstall ==> LastPoint(d) == SyncedPoint(d)
  {
  }

  lemma TableStepLevels(d: Disk, m: Memory, acked: set<Group>, issued: set<Group>, d': Disk, m': Memory)
    requires RunningGood(d, m, acked, issued) && RunningLevels(d, m)
    requires BuildTable(d, m, d', m') || (m' == m && exists n, junk :: WritePartial(d, m, d', n, junk))
      || (m' == m && exists n, entries :: FinishOutput(d, m, d', n, entries))
    ensures RunningLevels(d', m')
  {
    PointTables(d, m, acked, issued);
    var n := ChangedTable(d, m, acked, issued, d', m');
    PendingIsUnused(d, m, acked, issued, n);
    UnusedTablesManifest(d, m, d');
    FrameLevels(d, m, d', m');
  }

  /** The one table that changes is pending. */
  lemma ChangedTable(d: Disk, m: Memory, acked: set<Group>, issued: set<Group>, d': Disk, m': Memory) returns (n: nat)
    requires RunningGood(d, m, acked, issued)
    requires BuildTable(d, m, d', m') || (m' == m && exists n, junk :: WritePartial(d, m, d', n, junk))
      || (m' == m && exists n, entries :: FinishOutput(d, m, d', n, entries))
    ensures n in m.pending && (n in d.tables && m.installing.InstallCompaction? ==> !d.tables[n].synced)
    ensures d'.logs == d.logs && d'.manifests == d.manifests && d'.current == d.current
    ensures forall k :: k in d.tables && k != n ==> k in d'.tables && d'.tables[k] == d.tables[k]
  {
    if BuildTable(d, m, d', m') {
      n := m.flushing.n;
    } else if k, junk :| WritePartial(d, m, d', k, junk) {
      n := k;
    } else {
      var k, entries :| FinishOutput(d, m, d', k, entries);
      n := k;
    }
  }

  lemma DeleteLevels(d: Disk, m: Memory, acked: set<Group>, issued: set<Group>, d': Disk)
    requires RunningGood(d, m, acked, issued) && RunningLevels(d, m) && DeleteObsolete(d, m, d')
    ensures RunningLevels(d', m)
  {
    PointTables(d, m, acked, issued);
    FrameLevels(d, m, d', m);
  }

  lemma BackgroundLevels(d: Disk, m: Memory, acked: set<Group>, issued: set<Group>, d': Disk, m': Memory)
    requires RunningGood(d, m, acked, issued) && RunningLevels(d, m) && BackgroundStep(d, m, d', m')
    ensures RunningLevels(d', m') && (AppendCompactionEdit(d, m, d', m') ==> MergeAnswers(d, m))
  {
    if AppendCompactionEdit(d, m, d', m') {
      AppendCompactionLevels(d, m, acked, issued, d', m');
    } else if SwitchMemTable(d, m, d', m') {
      PointTables(d, m, acked, issued);
      FrameLevels(d, m, d', m');
    } else if d' == d && InMemory(m, m', SyncedPoint(d).floor) {
      InMemoryLevels(d, m, acked, issued, m');
    } else if AppendFlushEdit(d, m, d', m') {
      AppendFlushLevels(d, m, acked, issued, d', m');
    } else if FinishFlush(d, m, d', m') || FinishCompaction(d, m, d', m') || FinishMove(d, m, d', m') {
      FinishLevels(d, m, acked, issued, d', m');
    } else if AppendMoveEdit(d, m, d', m') {
      AppendMoveLevels(d, m, acked, issued, d', m');
    } else if m' == m && DeleteObsolete(d, m, d') {
      DeleteLevels(d, m, acked, issued, d');
    } else {
      TableStepLevels(d, m, acked, issued, d', m');
    }
  }

  /** A recovered table holds what was logged after all that is in tables already. */
  lemma RecoveredTableFits(d: Disk, r: Recovery, acked: set<Group>, issued: set<Group>, chunk: set<Group>, at: Position,
                           f: File)
    requires OpeningGood(d, r, acked, issued) && Arranged(d.tables, LastPoint(d).tables + r.newTables, r.levels)
    requires LogsInOrder(d.logs, LastPoint(d).logNumber)
    requires r.converted == ReadBetween(d.logs, LastPoint(d).logNumber, Position(0, 0), r.at)
    requires chunk == ReadBetween(d.logs, LastPoint(d).logNumber, r.at, at)
    requires f.number == r.nextFile && ValidFile(f) && EntrySet(f.entries) == Ops(chunk)
    ensures Fits(r.levels, 0, f) && f.number !in LastPoint(d).tables + r.newTables
  {
    var p := LastPoint(d);
    ArrangedContent(d.tables, p.tables + r.newTables, r.levels);
    ContentOfUnion(d.tables, p.tables, r.newTables);
    ReadIsLogged(d.logs, p.logNumber, r.at, at);
    OpsMonotone(chunk, LogsFrom(d.logs, p.logNumber));
    LaterIsNewer(d.logs, p.logNumber, r.at, at);
    forall l, g | 0 <= l < NUM_LEVELS && g in r.levels[l] ensures NewerThan(f, g) {
      forall x, e | x in f.entries && e in g.entries ensures x.key.sequence > e.key.sequence {
        assert x in EntrySet(f.entries) && e in AllEntries(r.levels);
      }
    }
    assert forall g :: g in r.levels[0] ==> g.number in p.tables + r.newTables;
  }

  lemma LaterIsNewer(logs: map<nat, Log>, low: nat, middle: Position, end: Position)
    requires LogsInOrder(logs, low)
    ensures AllNewer(Ops(ReadBetween(logs, low, middle, end)), Ops(ReadBetween(logs, low, Position(0, 0), middle)))
  {
    forall x, e | x in Ops(ReadBetween(logs, low, middle, end))
      && e in Ops(ReadBetween(logs, low, Position(0, 0), middle))
      ensures x.key.sequence > e.key.sequence
    {
      var n, i :| n in logs && low <= n && 0 <= i < |logs[n].records| && !Earlier(Position(n, i), middle)
        && x in logs[n].records[i];
      var k, j :| k in logs && low <= k && 0 <= j < |logs[k].records| && Earlier(Position(k, j), middle)
        && e in logs[k].records[j];
      assert IsRecord(logs, low, Position(n, i)) && IsRecord(logs, low, Position(k, j))
        && Earlier(Position(k, j), Position(n, i));
      assert AllNewer(RecordAt(logs, Position(n, i)), RecordAt(logs, Position(k, j)));
    }
  }

  lemma ConvertLevels(d: Disk, r: Recovery, acked: set<Group>, issued: set<Group>, d': Disk, r': Recovery,
                      chunk: set<Group>)
    requires OpeningGood(d, r, acked, issued) && LogsInOrder(d.logs, LastPoint(d).logNumber)
    requires r.converted == ReadBetween(d.logs, LastPoint(d).logNumber, Position(0, 0), r.at)
    requires Arranged(d.tables, LastPoint(d).tables + r.newTables, r.levels) && GoodVersion(r.levels)
      && ConvertGroups(d, r, d', r', chunk)
    ensures Arranged(d'.tables, LastPoint(d).tables + r'.newTables, r'.levels) && GoodVersion(r'.levels)
  {
    var all := LastPoint(d).tables + r.newTables;
    if Ops(chunk) == {} {
      assert r'.newTables == r.newTables;
    } else {
      var f := Level0File(r, r'.levels, Ops(chunk));
      RecoveredTableFits(d, r, acked, issued, chunk, r'.at, f);
      WrittenTableLevels(d.tables, all, r.levels, f, Ops(chunk), r'.levels);
      assert LastPoint(d).tables + r'.newTables == all + {f.number};
    }
  }

  lemma Level0File(r: Recovery, w: Version, entries: set<Entry>) returns (f: File)
    requires NewLevel0(r, w, entries)
    ensures f.number == r.nextFile && ValidFile(f) && EntrySet(f.entries) == entries && Flushed(r.levels, 0, f, w)
  {
    f :| f.number == r.nextFile && ValidFile(f) && EntrySet(f.entries) == entries && Flushed(r.levels, 0, f, w);
  }

  /** One more table is written and goes to level 0. */
  lemma WrittenTableLevels(tables: map<nat, Table>, version: set<nat>, v: Version, f: File, entries: set<Entry>,
                           w: Version)
    requires Arranged(tables, version, v) && GoodVersion(v) && Fits(v, 0, f) && Flushed(v, 0, f, w)
    requires f.number !in version && EntrySet(f.entries) == entries && forall n :: n in version ==> n in tables
    ensures Arranged(tables[f.number := Table(entries, true)], version + {f.number}, w) && GoodVersion(w)
  {
    var tables' := tables[f.number := Table(entries, true)];
    ArrangedFrame(tables, tables', version, v);
    FittingFlush(tables', version, v, 0, f, w);
  }

  lemma OpeningLevels(s: State, s': State)
    requires Inv(s) && LevelsGood(s) && OrderGood(s) && s.phase.Opening? && s'.phase.Opening?
    requires RecoveryStep(s.disk, s.phase.r, s'.disk, s'.phase.r)
    ensures LevelsGood(s')
  {
    var d, r, d', r', p := s.disk, s.phase.r, s'.disk, s'.phase.r, LastPoint(s.disk);
    OpeningPoint(d, r, s.acked, s.issued, d', r');
    OpeningTables(d, r, s.acked, s.issued, d', r');
    PointFrameLevels(d, d', p);
    if chunk :| ConvertGroups(d, r, d', r', chunk) {
      ConvertLevels(d, r, s.acked, s.issued, d', r', chunk);
    } else {
      ArrangedFrame(d.tables, d'.tables, p.tables + r.newTables, r.levels);
    }
  }

  lemma OpeningPoint(d: Disk, r: Recovery, acked: set<Group>, issued: set<Group>, d': Disk, r': Recovery)
    requires OpeningGood(d, r, acked, issued) && RecoveryStep(d, r, d', r')
    ensures PointsExist(d') && LastPoint(d') == LastPoint(d) == SyncedPoint(d)
  {
    OpeningLogs(d, r, acked, issued, d', r');
  }

  lemma OpeningTables(d: Disk, r: Recovery, acked: set<Group>, issued: set<Group>, d': Disk, r': Recovery)
    requires OpeningGood(d, r, acked, issued) && RecoveryStep(d, r, d', r')
    ensures forall n :: n in LastPoint(d).tables + r.newTables ==>
      n in d.tables && n in d'.tables && d'.tables[n] == d.tables[n]
    ensures !(exists chunk :: ConvertGroups(d, r, d', r', chunk)) ==>
      r'.levels == r.levels && r'.newTables == r.newTables
  {
  }

  lemma StepKeepsLevels(s: State, s': State)
    requires Inv(s) && LevelsGood(s) && OrderGood(s) && Next(s, s')
    ensures LevelsGood(s') && (s.phase.Running? ==> MergesAnswer(s, s'))
  {
    if Crash(s, s') {
      CrashKeepsLevels(s, s');
    } else if s.phase == Down {
      assert LastPoint(s.disk).tables + {} == LastPoint(s.disk).tables;
    } else if s.phase.Opening? {
      if s'.phase.Opening? {
        OpeningLevels(s, s');
      } else {
        SwitchLevels(s, s');
      }
    } else {
      RunningStepLevels(s, s');
    }
  }

  lemma SwitchLevels(s: State, s': State)
    requires Inv(s) && LevelsGood(s) && s.phase.Opening? && s'.phase.Running?
      && SwitchCurrent(s.disk, s.phase.r, s'.disk, s'.phase.m)
    ensures LevelsGood(s')
  {
    assert SyncedPoint(s'.disk) == LastPoint(s'.disk) == s.phase.r.target.value;
  }

  lemma RunningStepLevels(s: State, s': State)
    requires Inv(s) && LevelsGood(s) && s.phase.Running? && s'.phase.Running? && PointsExist(s.disk)
    requires WriteStep(s.disk, s.phase.m, s.acked, s.issued, s'.disk, s'.phase.m, s'.acked, s'.issued)
      || (s'.acked == s.acked && s'.issued == s.issued && BackgroundStep(s.disk, s.phase.m, s'.disk, s'.phase.m))
    ensures LevelsGood(s') && MergesAnswer(s, s')
  {
    if BackgroundStep(s.disk, s.phase.m, s'.disk, s'.phase.m) {
      BackgroundLevels(s.disk, s.phase.m, s.acked, s.issued, s'.disk, s'.phase.m);
    } else {
      WriteLevels(s, s');
    }
  }

  lemma WriteFrame(d: Disk, m: Memory, acked: set<Group>, issued: set<Group>, d': Disk, m': Memory, acked': set<Group>,
                   issued': set<Group>)
    requires WriteStep(d, m, acked, issued, d', m', acked', issued')
    ensures d'.tables == d.tables && d'.manifests == d.manifests && d'.current == d.current
    ensures m'.levels == m.levels && m'.compacting == m.compacting && m'.installing == m.installing
      && m'.flushing == m.flushing
  {
  }

  lemma WriteLevels(s: State, s': State)
    requires Inv(s) && LevelsGood(s) && s.phase.Running? && s'.phase.Running? && PointsExist(s.disk)
    requires WriteStep(s.disk, s.phase.m, s.acked, s.issued, s'.disk, s'.phase.m, s'.acked, s'.issued)
    ensures LevelsGood(s') && MergesAnswer(s, s')
  {
    PointTables(s.disk, s.phase.m, s.acked, s.issued);
    WriteFrame(s.disk, s.phase.m, s.acked, s.issued, s'.disk, s'.phase.m, s'.acked, s'.issued);
    FrameLevels(s.disk, s.phase.m, s'.disk, s'.phase.m);
  }
}
