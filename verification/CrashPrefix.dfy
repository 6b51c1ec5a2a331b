// Which groups a crash can take while it leaves later ones (MakeRoomForWrite in db/db_impl.cc changes
// to a new log without syncing the old one).

module CrashPrefix {
  import opened DbFormat
  import opened Meaning
  import opened Disks
  import opened DurableRun
  import opened DurableSteps
  import opened DurableRecovery
  import opened LogOrder
  import opened CrashSafety
  import opened Runs

  ghost predicate OlderThan(h: Group, g: Group) {
    exists e, d :: e in h && d in g && e.key.sequence < d.key.sequence
  }

  /** No group is missing that is older than one that is there. */
  ghost predicate IsPrefix(issued: set<Group>, survivors: set<Group>) {
    forall g, h :: g in survivors && h in issued && OlderThan(h, g) ==> h in survivors
  }

  /** Operations that are not synced, in a log older than another that holds operations. */
  ghost predicate Exposed(logs: map<nat, Log>, low: nat, p: Position, q: Position) {
    && IsRecord(logs, low, p) && IsRecord(logs, low, q) && p.log < q.log && logs[p.log].synced <= p.record
    && RecordAt(logs, p) != {} && RecordAt(logs, q) != {}
  }

  ghost predicate CrashesKeepPrefix(s: State) {
    forall after :: CrashOf(s.disk, after) && PointsExist(after) ==> IsPrefix(s.issued, Survivors(after))
  }

  lemma WhereGroupsAre(s: State, x: Point)
    requires Inv(s) && PointsExist(s.disk) && (x == SyncedPoint(s.disk) || x == LastPoint(s.disk))
    ensures s.issued == x.flushed + LogsFrom(s.disk.logs, x.logNumber)
    ensures SyncedPoint(s.disk).logNumber <= x.logNumber
  {
    if s.phase.Running? {
      SplitLogs(s.disk.logs, s.phase.m.logNumber, s.phase.m.logfileNumber);
    }
  }

  /** A record of the crashed disk was there before the crash. */
  lemma SurvivingRecord(d: Disk, after: Disk, low: nat, g: Group) returns (q: Position)
    requires CrashOf(d, after) && g in LogsFrom(after.logs, low)
    ensures IsRecord(after.logs, low, q) && IsRecord(d.logs, low, q)
      && RecordAt(after.logs, q) == g == RecordAt(d.logs, q)
  {
    var n, i :| n in after.logs && low <= n && 0 <= i < |after.logs[n].records| && after.logs[n].records[i] == g;
    q := Position(n, i);
    assert CrashedLog(d.logs[n], after.logs[n]);
  }

  lemma LoggedRecord(logs: map<nat, Log>, low: nat, g: Group) returns (q: Position)
    requires g in LogsFrom(logs, low)
    ensures IsRecord(logs, low, q) && RecordAt(logs, q) == g
  {
    var n, i :| n in logs && low <= n && 0 <= i < |logs[n].records| && logs[n].records[i] == g;
    q := Position(n, i);
  }

  /** What is older than a surviving record, in the same log or synced, survives. */
  lemma OlderRecordSurvives(d: Disk, after: Disk, low: nat, p: Position, q: Position)
    requires CrashOf(d, after) && LogsInOrder(d.logs, low) && IsRecord(d.logs, low, p) && IsRecord(d.logs, low, q)
    requires IsRecord(after.logs, low, q) && OlderThan(RecordAt(d.logs, p), RecordAt(d.logs, q))
    requires !Exposed(d.logs, low, p, q)
    ensures RecordAt(d.logs, p) in LogsFrom(after.logs, low)
  {
    assert !Earlier(q, p) && p != q ==> Earlier(p, q);
    if p != q {
      assert !Earlier(q, p);
    }
    assert p.log in after.logs && CrashedLog(d.logs[p.log], after.logs[p.log]);
    assert after.logs[p.log].records[p.record] == d.logs[p.log].records[p.record];
  }

  lemma CrashKeepsPrefix(s: State, after: Disk)
    requires Inv(s) && OrderGood(s) && PointsExist(s.disk) && CrashOf(s.disk, after) && PointsExist(after)
    requires !exists p, q :: Exposed(s.disk.logs, SyncedPoint(s.disk).logNumber, p, q)
    ensures IsPrefix(s.issued, Survivors(after))
  {
    var d, x := s.disk, LastPoint(after);
    InvHasDisk(s);
    assert x == SyncedPoint(d) || x == LastPoint(d) by {
      LastOrSynced(s, after);
    }
    WhereGroupsAre(s, x);
    forall g, h | g in Survivors(after) && h in s.issued && OlderThan(h, g) ensures h in Survivors(after) {
      OlderSurvives(s, after, x, g, h);
    }
  }

  lemma LastOrSynced(s: State, after: Disk)
    requires Inv(s) && PointsExist(s.disk) && CrashOf(s.disk, after) && PointsExist(after)
    ensures LastPoint(after) == SyncedPoint(s.disk) || LastPoint(after) == LastPoint(s.disk)
  {
    InvHasDisk(s);
    var m, k := s.disk.manifests[s.disk.current], after.manifests[after.current];
    assert |k.points| == m.synced || |k.points| == |m.points|;
  }

  lemma OlderSurvives(s: State, after: Disk, x: Point, g: Group, h: Group)
    requires DiskGood(s.disk, s.acked, s.issued) && OrderGood(s) && PointsExist(s.disk) && CrashOf(s.disk, after)
    requires (x == SyncedPoint(s.disk) || x == LastPoint(s.disk)) && SyncedPoint(s.disk).logNumber <= x.logNumber
    requires h in x.flushed + LogsFrom(s.disk.logs, x.logNumber) && g in x.flushed + LogsFrom(after.logs, x.logNumber)
    requires OlderThan(h, g) && !exists p, q :: Exposed(s.disk.logs, SyncedPoint(s.disk).logNumber, p, q)
    ensures h in x.flushed + LogsFrom(after.logs, x.logNumber)
  {
    var d := s.disk;
    if h !in x.flushed {
      var p := LoggedRecord(d.logs, x.logNumber, h);
      NotFlushedBefore(d, x, s.acked, s.issued, g, h);
      var q := SurvivingRecord(d, after, x.logNumber, g);
      assert !Exposed(d.logs, SyncedPoint(d).logNumber, p, q);
      OrderWithin(d.logs, SyncedPoint(d).logNumber, d.logs, x.logNumber);
      OlderRecordSurvives(d, after, x.logNumber, p, q);
    }
  }

  /** What is in tables is older than what is in the logs. */
  lemma NotFlushedBefore(d: Disk, x: Point, acked: set<Group>, issued: set<Group>, g: Group, h: Group)
    requires PointGood(d, x, acked, issued) && h in LogsFrom(d.logs, x.logNumber) && OlderThan(h, g)
    ensures g !in x.flushed
  {
    var e, c :| e in h && c in g && e.key.sequence < c.key.sequence;
    assert e in Ops(LogsFrom(d.logs, x.logNumber));
    assert c !in Ops(x.flushed);
  }

  /** The crash that takes what is not synced of one log and nothing else. */
  function CutLog(d: Disk, n: nat): Disk
    requires PointsExist(d) && n in d.logs && d.logs[n].synced <= |d.logs[n].records|
  {
    var logs := map k | k in d.logs ::
      if k == n then Log(d.logs[k].records[..d.logs[k].synced], d.logs[k].synced)
                     else Log(d.logs[k].records, |d.logs[k].records|);
    var m := d.manifests[d.current];
    d.(logs := logs, manifests := d.manifests[d.current := ManifestFile(m.points[..m.synced], m.synced)])
  }

  lemma CutIsCrash(d: Disk, n: nat)
    requires PointsExist(d) && n in d.logs && forall k :: k in d.logs ==> d.logs[k].synced <= |d.logs[k].records|
    ensures CrashOf(d, CutLog(d, n)) && PointsExist(CutLog(d, n)) && LastPoint(CutLog(d, n)) == SyncedPoint(d)
  {
    var after := CutLog(d, n);
    forall k | k in after.logs ensures k in d.logs && CrashedLog(d.logs[k], after.logs[k]) {
    }
  }

  lemma ExposedIsLost(s: State, p: Position, q: Position)
    requires Inv(s) && OrderGood(s) && PointsExist(s.disk) && Exposed(s.disk.logs, SyncedPoint(s.disk).logNumber, p, q)
    ensures !CrashesKeepPrefix(s)
  {
    InvHasDisk(s);
    var d, x := s.disk, SyncedPoint(s.disk);
    var after := CutLog(d, p.log);
    CutIsCrash(d, p.log);
    WhereGroupsAre(s, x);
    var h, g := RecordAt(d.logs, p), RecordAt(d.logs, q);
    LaterStays(d, x, p, q);
    assert h in LogsFrom(d.logs, x.logNumber) && h in s.issued;
    CutOffIsGone(d, x, s.acked, s.issued, p);
    assert !IsPrefix(s.issued, Survivors(after));
  }

  lemma LaterStays(d: Disk, x: Point, p: Position, q: Position)
    requires PointsExist(d) && x == SyncedPoint(d) && LogsInOrder(d.logs, x.logNumber)
      && Exposed(d.logs, x.logNumber, p, q)
    requires forall k :: k in d.logs ==> d.logs[k].synced <= |d.logs[k].records|
    ensures RecordAt(d.logs, q) in Survivors(CutLog(d, p.log)) && OlderThan(RecordAt(d.logs, p), RecordAt(d.logs, q))
  {
    var h, g, after := RecordAt(d.logs, p), RecordAt(d.logs, q), CutLog(d, p.log);
    CutIsCrash(d, p.log);
    assert after.logs[q.log].records[q.record] == g && g in LogsFrom(after.logs, x.logNumber);
    assert AllNewer(g, h);
    var e :| e in h;
    var c :| c in g;
    assert e.key.sequence < c.key.sequence;
  }

  lemma CutOffIsGone(d: Disk, x: Point, acked: set<Group>, issued: set<Group>, p: Position)
    requires PointsExist(d) && x == SyncedPoint(d) && PointGood(d, x, acked, issued) && LogsInOrder(d.logs, x.logNumber)
    requires IsRecord(d.logs, x.logNumber, p) && d.logs[p.log].synced <= p.record && RecordAt(d.logs, p) != {}
    requires forall k :: k in d.logs ==> d.logs[k].synced <= |d.logs[k].records|
    ensures RecordAt(d.logs, p) !in Survivors(CutLog(d, p.log))
  {
    var h, after := RecordAt(d.logs, p), CutLog(d, p.log);
    var e :| e in h;
    CutIsCrash(d, p.log);
    assert h in LogsFrom(d.logs, x.logNumber);
    assert e in Ops(LogsFrom(d.logs, x.logNumber)) && e !in Ops(x.flushed);
    forall g | g in LogsFrom(after.logs, x.logNumber) ensures g != h {
      var r := SurvivingRecord(d, after, x.logNumber, g);
      assert Earlier(r, p) || Earlier(p, r);
      assert e !in g;
    }
  }

  /** Whatever the crash, what survives is all that was written up to some sequence number, exactly if no
      log holds unsynced operations while a newer log holds operations too. */
  lemma PrefixExactly(s: State)
    requires Sound(s)
    ensures PointsExist(s.disk)
    ensures CrashesKeepPrefix(s) <==> !exists p, q :: Exposed(s.disk.logs, SyncedPoint(s.disk).logNumber, p, q)
  {
    PointsOrdered(s);
    if p, q :| Exposed(s.disk.logs, SyncedPoint(s.disk).logNumber, p, q) {
      ExposedIsLost(s, p, q);
    } else {
      forall after | CrashOf(s.disk, after) && PointsExist(after) ensures IsPrefix(s.issued, Survivors(after)) {
        CrashKeepsPrefix(s, after);
      }
    }
  }

  lemma AppendUnsynced(t: State, g: Group) returns (a: State)
    requires Sound(t) && t.phase.Running? && t.phase.m.writing == NoWrite && DistinctSequences(g)
    requires forall e :: e in g ==> t.phase.m.lastSequence < e.key.sequence <= t.phase.m.lastSequence + |g|
    ensures Next(t, a) && Sound(a) && a.phase.Running? && a.phase.m == t.phase.m.(writing := Appended(g, false, false))
    ensures t.phase.m.logfileNumber in t.disk.logs
    ensures var f :=
      t.phase.m.logfileNumber; a.disk == WithLog(t.disk, f, t.disk.logs[f].(records := t.disk.logs[f].records + [g]))
  {
    var d, m, f := t.disk, t.phase.m, t.phase.m.logfileNumber;
    var d' := WithLog(d, f, d.logs[f].(records := d.logs[f].records + [g]));
    a := State(d', Running(m.(writing := Appended(g, false, false))), t.issued + {g}, t.acked);
    assert AppendGroup(d, m, t.issued, d', a.phase.m, a.issued, g, false);
    NextKeepsSound(t, a);
  }

  lemma FinishUnsynced(a: State, g: Group) returns (b: State)
    requires Sound(a) && a.phase.Running? && a.phase.m.writing == Appended(g, false, false)
    ensures Next(a, b) && Sound(b) && b.phase.Running? && b.disk == a.disk
    ensures b.phase.m == a.phase.m.(writing := NoWrite, mem := a.phase.m.mem + {g}, lastSequence :=
                                    a.phase.m.lastSequence + |g|)
  {
    var m := a.phase.m;
    b := a.(phase := Running(m.(writing := NoWrite, mem := m.mem + {g}, lastSequence := m.lastSequence + |g|)));
    assert a.acked + {} == a.acked && FinishWrite(m, a.acked, b.phase.m, b.acked);
    NextKeepsSound(a, b);
  }

  /** A write without sync: appended to the log, inserted, acknowledged. */
  lemma WriteUnsynced(t: State, e: Entry) returns (states: seq<State>)
    requires Sound(t) && t.phase.Running? && t.phase.m.writing == NoWrite
      && e.key.sequence == t.phase.m.lastSequence + 1
    ensures IsRun(NextStep(), states) && states[0] == t
    ensures var u, f := states[|states| - 1], t.phase.m.logfileNumber;
      && Sound(u) && u.phase.Running? && f in t.disk.logs
      && u.disk == WithLog(t.disk, f, t.disk.logs[f].(records := t.disk.logs[f].records + [{e}]))
      && u.phase.m == t.phase.m.(mem := t.phase.m.mem + {{e}}, lastSequence := t.phase.m.lastSequence + 1)
  {
    var a := AppendUnsynced(t, {e});
    var b := FinishUnsynced(a, {e});
    states := [t, a, b];
    TwoSteps(NextStep(), t, a, b);
  }

  lemma SwitchLog(t: State) returns (u: State)
    requires Sound(t) && t.phase.Running? && t.phase.m.writing == NoWrite && t.phase.m.imm == None
    ensures Next(t, u) && Sound(u) && u.phase.Running? && u.disk == WithLog(t.disk, t.phase.m.nextFile, Log([], 0))
    ensures u.phase.m.writing == NoWrite && u.phase.m.lastSequence == t.phase.m.lastSequence
      && u.phase.m.logfileNumber == t.phase.m.nextFile
  {
    var m := t.phase.m;
    u := t.(disk := WithLog(t.disk, m.nextFile, Log([], 0)),
            phase := Running(m.(logfileNumber := m.nextFile, nextFile := m.nextFile + 1, imm := Some(m.mem), mem :=
                                {})));
    assert SwitchMemTable(t.disk, m, u.disk, u.phase.m);
    NextKeepsSound(t, u);
  }

  const EMPTY_DISK := Disk(map[], map[], map[1 := ManifestFile([FIRST_POINT], 1)], 1)

  /** A write without sync, and a change of logs. */
  lemma WriteSwitch(t: State, e: Entry) returns (states: seq<State>)
    requires Sound(t) && t.phase.Running? && t.phase.m.writing == NoWrite && t.phase.m.imm == None
    requires e.key.sequence == t.phase.m.lastSequence + 1
    ensures IsRun(NextStep(), states) && states[0] == t
    ensures var v, f, k := states[|states| - 1], t.phase.m.logfileNumber, t.phase.m.nextFile;
      && Sound(v) && v.phase.Running? && v.phase.m.writing == NoWrite && v.phase.m.logfileNumber == k
      && v.phase.m.lastSequence == e.key.sequence && f in t.disk.logs
      && v.disk == WithLog(WithLog(t.disk, f, t.disk.logs[f].(records := t.disk.logs[f].records + [{e}])), k,
                           Log([], 0))
  {
    states := WriteUnsynced(t, e);
    var u := states[|states| - 1];
    var v := SwitchLog(u);
    assert NextStep()(u, v);
    JoinRuns(NextStep(), states, [u, v]);
    states := states + [u, v][1..];
  }

  ghost predicate TwoWritten(t: State, w: State, e: Entry, c: Entry)
    requires t.phase.Running?
  {
    var f, k := t.phase.m.logfileNumber, t.phase.m.nextFile;
    && f in t.disk.logs && w.disk.manifests == t.disk.manifests && w.disk.current == t.disk.current
    && w.disk.logs == t.disk.logs[f := t.disk.logs[f].(records := t.disk.logs[f].records + [{e}])][k := Log([{c}], 0)]
  }

  /** Two writes without sync, with a change of logs between them. */
  lemma WriteSwitchWrite(t: State, e: Entry, c: Entry) returns (states: seq<State>)
    requires Sound(t) && t.phase.Running? && t.phase.m.writing == NoWrite && t.phase.m.imm == None
    requires e.key.sequence == t.phase.m.lastSequence + 1 && c.key.sequence == t.phase.m.lastSequence + 2
    ensures IsRun(NextStep(), states) && states[0] == t && Sound(states[|states| - 1])
      && TwoWritten(t, states[|states| - 1], e, c)
  {
    states := WriteSwitch(t, e);
    var last := WriteUnsynced(states[|states| - 1], c);
    SecondWritten(t, states[|states| - 1], last[|last| - 1], e, c);
    JoinRuns(NextStep(), states, last);
    states := states + last[1..];
  }

  lemma SecondWritten(t: State, v: State, w: State, e: Entry, c: Entry)
    requires t.phase.Running? && t.phase.m.logfileNumber in t.disk.logs
    requires var f, k := t.phase.m.logfileNumber, t.phase.m.nextFile;
      && v.disk == WithLog(WithLog(t.disk, f, t.disk.logs[f].(records := t.disk.logs[f].records + [{e}])), k,
                           Log([], 0))
      && w.disk == WithLog(v.disk, k, v.disk.logs[k].(records := v.disk.logs[k].records + [{c}]))
    ensures TwoWritten(t, w, e, c)
  {
    assert v.disk.logs[t.phase.m.nextFile].records + [{c}] == [{c}];
  }

  /** From any engine that has just opened, two writes and a change of logs leave the first one exposed. */
  lemma FirstIsExposed(t: State, w: State, e: Entry, c: Entry)
    requires Sound(t) && t.phase.Running? && PointsExist(t.disk) && TwoWritten(t, w, e, c)
    ensures PointsExist(w.disk) && SyncedPoint(w.disk) == SyncedPoint(t.disk)
    ensures Exposed(w.disk.logs, SyncedPoint(w.disk).logNumber,
                    Position(t.phase.m.logfileNumber, |t.disk.logs[t.phase.m.logfileNumber].records|),
                    Position(t.phase.m.nextFile, 0))
  {
    InvHasDisk(t);
    var f, k := t.phase.m.logfileNumber, t.phase.m.nextFile;
    assert SyncedPoint(t.disk).logNumber <= f < k;
    assert w.disk.logs[f].records[|t.disk.logs[f].records|] == {e} && w.disk.logs[k].records[0] == {c};
    assert e in {e} && c in {c};
  }

  lemma OpenEmpty() returns (states: seq<State>)
    ensures Run(states)
    ensures var t := states[|states| - 1];
      Sound(t) && t.phase.Running? && t.phase.m.writing == NoWrite && t.phase.m.imm == None
        && t.phase.m.lastSequence == 0
  {
    var s := State(EMPTY_DISK, Down, {}, {});
    InitIsGood(s);
    states := RecoveryCompletes(s);
    assert LastPoint(s.disk) == FIRST_POINT;
  }

  /** A run from an empty database after which a crash can take an earlier write and leave a later one. */
  lemma EarlierLostLaterKept() returns (states: seq<State>, after: Disk, lost: Group, kept: Group)
    ensures Run(states) && CrashOf(states[|states| - 1].disk, after) && PointsExist(after)
    ensures lost in states[|states| - 1].issued && OlderThan(lost, kept)
    ensures lost !in Survivors(after) && kept in Survivors(after)
  {
    states := OpenEmpty();
    var t := states[|states| - 1];
    var e, c := Entry(InternalKey(1.0, 1, Value), "earlier"), Entry(InternalKey(2.0, 2, Value), "later");
    var more := WriteSwitchWrite(t, e, c);
    var w := more[|more| - 1];
    JoinRuns(NextStep(), states, more);
    states := states + more[1..];
    after, lost, kept := LostInCrash(t, w, e, c);
  }

  lemma LostInCrash(t: State, w: State, e: Entry, c: Entry) returns (after: Disk, lost: Group, kept: Group)
    requires Sound(t) && t.phase.Running? && Sound(w) && TwoWritten(t, w, e, c)
    ensures CrashOf(w.disk, after) && PointsExist(after) && lost in w.issued && OlderThan(lost, kept)
    ensures lost !in Survivors(after) && kept in Survivors(after)
  {
    PointsOrdered(t);
    FirstIsExposed(t, w, e, c);
    PrefixExactly(w);
    after :| CrashOf(w.disk, after) && PointsExist(after) && !IsPrefix(w.issued, Survivors(after));
    kept, lost :| kept in Survivors(after) && lost in w.issued && OlderThan(lost, kept) && lost !in Survivors(after);
  }
}
