// Logs, tables, manifests, crashes and recovery (db/db_impl.cc, db/version_set.cc).

/** What is on disk, and when it is enough to recover from. */
module Disks {
  import opened DbFormat
  import opened Meaning
  import opened Versions

  /** The operations of one write group: one log record. */
  type Group = set<Entry>

  /** The first synced records survive a crash; of the others some prefix does. */
  datatype Log = Log(records: seq<Group>, synced: nat)

  datatype Table = Table(entries: set<Entry>, synced: bool)

  /** What the manifest adds up to after one of its edits: the tables, and how they lie in levels. floor
      and flushed are ghost knowledge: the oldest snapshot the tables still serve, and the groups they
      stand for. */
  datatype Point = Point(tables: set<nat>, levels: Version, logNumber: nat, nextFile: nat, lastSequence: nat,
                         floor: nat, flushed: set<Group>)

  datatype ManifestFile = ManifestFile(points: seq<Point>, synced: nat)

  datatype Disk = Disk(logs: map<nat, Log>, tables: map<nat, Table>, manifests: map<nat, ManifestFile>, current: nat)

  function Ops(groups: set<Group>): set<Entry> {
    set g, e | g in groups && e in g :: e
  }

  function Content(tables: map<nat, Table>, version: set<nat>): set<Entry> {
    set n, e | n in version && n in tables && e in tables[n].entries :: e
  }

  /** The groups in the logs numbered low or later, and before high. */
  function LogGroups(logs: map<nat, Log>, low: nat, high: nat): set<Group> {
    set n, i | n in logs && low <= n < high && 0 <= i < |logs[n].records| :: logs[n].records[i]
  }

  function LogsFrom(logs: map<nat, Log>, low: nat): set<Group> {
    set n, i | n in logs && low <= n && 0 <= i < |logs[n].records| :: logs[n].records[i]
  }

  function SyncedFrom(logs: map<nat, Log>, low: nat): set<Group> {
    set n, i | n in logs && low <= n && 0 <= i < |logs[n].records| && i < logs[n].synced :: logs[n].records[i]
  }

  /** A place in the logs: before this record of this log. */
  datatype Position = Position(log: nat, record: nat)

  predicate Earlier(a: Position, b: Position) {
    a.log < b.log || (a.log == b.log && a.record < b.record)
  }

  predicate IsRecord(logs: map<nat, Log>, low: nat, p: Position) {
    p.log in logs && low <= p.log && p.record < |logs[p.log].records|
  }

  function RecordAt(logs: map<nat, Log>, p: Position): Group
    requires IsRecord(logs, 0, p)
  {
    logs[p.log].records[p.record]
  }

  /** The groups of the logs numbered low or later, in reading order from one place up to another. */
  function ReadBetween(logs: map<nat, Log>, low: nat, start: Position, end: Position): set<Group> {
    set n, i | n in logs && low <= n && 0 <= i < |logs[n].records|
               && !Earlier(Position(n, i), start) && Earlier(Position(n, i), end) :: logs[n].records[i]
  }

  /** Later records are newer, log by log and within each. */
  ghost predicate LogsInOrder(logs: map<nat, Log>, low: nat) {
    forall p, q :: IsRecord(logs, low, p) && IsRecord(logs, low, q) && Earlier(p, q) ==>
      AllNewer(RecordAt(logs, q), RecordAt(logs, p))
  }

  /** The stored entries answer, from the floor on, as the whole history would. */
  ghost predicate Represents(stored: set<Entry>, history: set<Entry>, floor: nat) {
    forall user, snapshot: nat :: floor <= snapshot ==>
      Visible(stored, user, snapshot) == Visible(history, user, snapshot)
  }

  ghost predicate Below(entries: set<Entry>, limit: nat) {
    forall e :: e in entries ==> e.key.sequence <= limit
  }

  ghost predicate TablesExist(tables: map<nat, Table>, version: set<nat>, limit: nat) {
    forall n :: n in version ==> n in tables && tables[n].synced && n < limit
  }

  /** Recovery that ends at this point of the manifest finds all it needs. */
  ghost predicate PointGood(disk: Disk, p: Point, acked: set<Group>, issued: set<Group>) {
    && TablesExist(disk.tables, p.tables, p.nextFile)
    && Content(disk.tables, p.tables) <= Ops(p.flushed)
    && Represents(Content(disk.tables, p.tables), Ops(p.flushed), p.floor)
    && p.flushed <= issued && LogsFrom(disk.logs, p.logNumber) <= issued
    && Below(Ops(p.flushed), p.lastSequence) && p.floor <= p.lastSequence
    && p.logNumber < p.nextFile && disk.current < p.nextFile
    && AllNewer(Ops(LogsFrom(disk.logs, p.logNumber)), Ops(p.flushed))
    && acked <= p.flushed + SyncedFrom(disk.logs, p.logNumber)
  }

  ghost predicate DiskGood(disk: Disk, acked: set<Group>, issued: set<Group>) {
    && disk.current in disk.manifests
    && DistinctSequences(Ops(issued))
    && (forall n :: n in disk.logs ==> disk.logs[n].synced <= |disk.logs[n].records|)
    && var m := disk.manifests[disk.current];
       && 1 <= m.synced <= |m.points| <= m.synced + 1
       && PointGood(disk, m.points[m.synced - 1], acked, issued)
       && PointGood(disk, m.points[|m.points| - 1], acked, issued)
  }

  ghost predicate PointsExist(d: Disk) {
    d.current in d.manifests && 1 <= d.manifests[d.current].synced <= |d.manifests[d.current].points|
  }

  /** The manifest's last point that is known to be on disk. */
  function SyncedPoint(disk: Disk): Point
    requires disk.current in disk.manifests
      && 1 <= disk.manifests[disk.current].synced <= |disk.manifests[disk.current].points|
  {
    disk.manifests[disk.current].points[disk.manifests[disk.current].synced - 1]
  }

  function LastPoint(disk: Disk): Point
    requires disk.current in disk.manifests && disk.manifests[disk.current].points != []
  {
    disk.manifests[disk.current].points[|disk.manifests[disk.current].points| - 1]
  }

  ghost predicate CrashedLog(before: Log, after: Log) {
    && after.records <= before.records && after.synced == |after.records|
    && before.synced <= |after.records|
  }

  /** A crash keeps what was synced and, file by file, an arbitrary prefix of the rest; a file of
      which nothing was synced may vanish. */
  ghost predicate CrashOf(disk: Disk, after: Disk) {
    && (forall n :: n in after.logs ==> n in disk.logs && CrashedLog(disk.logs[n], after.logs[n]))
    && (forall n :: n in disk.logs && disk.logs[n].synced > 0 ==> n in after.logs)
    && (forall n :: n in disk.tables && disk.tables[n].synced ==>
          n in after.tables && after.tables[n] == disk.tables[n])
    && after.current == disk.current && disk.current in disk.manifests && after.current in after.manifests
    && var m, k := disk.manifests[disk.current], after.manifests[after.current];
       k.points <= m.points && k.synced == |k.points| && m.synced <= |k.points|
  }

  /** The groups that recovery from this disk brings back. */
  function Survivors(disk: Disk): set<Group>
    requires disk.current in disk.manifests && disk.manifests[disk.current].points != []
  {
    LastPoint(disk).flushed + LogsFrom(disk.logs, LastPoint(disk).logNumber)
  }

  lemma ContentUnchanged(before: map<nat, Table>, after: map<nat, Table>, version: set<nat>)
    requires forall n :: n in version ==> n in before && n in after && before[n].entries == after[n].entries
    ensures Content(after, version) == Content(before, version)
  {
  }

  lemma OpsMonotone(a: set<Group>, b: set<Group>)
    requires a <= b
    ensures Ops(a) <= Ops(b)
  {
  }

  lemma OpsUnion(a: set<Group>, b: set<Group>)
    ensures Ops(a + b) == Ops(a) + Ops(b)
  {
  }

  lemma OpsOne(g: Group)
    ensures Ops({g}) == g
  {
  }

  /** After a crash a point that was good is still good, with what survived as the new history. */
  lemma PointSurvives(disk: Disk, after: Disk, p: Point, acked: set<Group>, issued: set<Group>)
    requires PointGood(disk, p, acked, issued) && CrashOf(disk, after)
    ensures PointGood(after, p, acked, p.flushed + LogsFrom(after.logs, p.logNumber))
    ensures LogsFrom(after.logs, p.logNumber) <= LogsFrom(disk.logs, p.logNumber)
  {
    forall g | g in LogsFrom(after.logs, p.logNumber) ensures g in LogsFrom(disk.logs, p.logNumber) {
      var n, i :| n in after.logs && p.logNumber <= n && 0 <= i < |after.logs[n].records|
        && after.logs[n].records[i] == g;
      assert CrashedLog(disk.logs[n], after.logs[n]);
      assert disk.logs[n].records[i] == g;
    }
    forall g | g in SyncedFrom(disk.logs, p.logNumber) ensures g in SyncedFrom(after.logs, p.logNumber) {
      var n, i :| n in disk.logs && p.logNumber <= n && 0 <= i < |disk.logs[n].records| && i < disk.logs[n].synced
        && disk.logs[n].records[i] == g;
      assert CrashedLog(disk.logs[n], after.logs[n]);
      assert after.logs[n].records[i] == g;
    }
    OpsMonotone(LogsFrom(after.logs, p.logNumber), LogsFrom(disk.logs, p.logNumber));
    ContentUnchanged(disk.tables, after.tables, p.tables);
  }

  /** Whatever a crash leaves, recovery has every table it names, every acknowledged group that
      was synced, each group wholly or not at all, and answers as these groups alone would. */
  lemma CrashIsRecoverable(disk: Disk, after: Disk, acked: set<Group>, issued: set<Group>)
    requires DiskGood(disk, acked, issued) && CrashOf(disk, after)
    ensures DiskGood(after, acked, Survivors(after))
    ensures acked <= Survivors(after) <= issued
    ensures TablesExist(after.tables, LastPoint(after).tables, LastPoint(after).nextFile)
    ensures Represents(Ops(LogsFrom(after.logs,
                                    LastPoint(after).logNumber)) + Content(after.tables, LastPoint(after).tables),
                       Ops(Survivors(after)), LastPoint(after).floor)
  {
    var m, k := disk.manifests[disk.current], after.manifests[after.current];
    var p := LastPoint(after);
    assert p == m.points[|k.points| - 1];
    assert |k.points| == m.synced || |k.points| == |m.points|;
    PointSurvives(disk, after, p, acked, issued);
    assert acked <= Survivors(after) by {
      assert SyncedFrom(after.logs, p.logNumber) <= LogsFrom(after.logs, p.logNumber);
    }
    assert Survivors(after) <= issued;
    OpsMonotone(Survivors(after), issued);
    RecoveredAnswers(after, p, acked, Survivors(after));
  }

  lemma RecoveredAnswers(disk: Disk, p: Point, acked: set<Group>, issued: set<Group>)
    requires PointGood(disk, p, acked, issued) && DistinctSequences(Ops(issued))
    ensures Represents(Ops(LogsFrom(disk.logs, p.logNumber)) + Content(disk.tables, p.tables),
                       Ops(p.flushed + LogsFrom(disk.logs, p.logNumber)), p.floor)
  {
    var upper := LogsFrom(disk.logs, p.logNumber);
    OpsMonotone(p.flushed + upper, issued);
    assert Ops(p.flushed + upper) == Ops(upper) + Ops(p.flushed);
    forall user, snapshot: nat | p.floor <= snapshot
      ensures Visible(Ops(upper) + Content(disk.tables, p.tables), user, snapshot)
        == Visible(Ops(upper) + Ops(p.flushed), user, snapshot)
    {
      SameUnder(Ops(upper), Content(disk.tables, p.tables), Ops(p.flushed), user, snapshot);
    }
  }
}
