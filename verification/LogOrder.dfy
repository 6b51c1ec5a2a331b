// The order of the logged groups: later records are newer, in every state of every run.

module LogOrder {
  import opened DbFormat
  import opened Meaning
  import opened Disks
  import opened DurableRun
  import opened DurableSteps
  import opened DurableRecovery

  /** The logs that recovery would read are in order, and what recovery has converted is what comes first. */
  ghost predicate OrderGood(s: State) {
    PointsExist(s.disk) ==>
      && LogsInOrder(s.disk.logs, SyncedPoint(s.disk).logNumber)
      && (s.phase.Opening? && s.phase.r.newLog == None ==>
            s.phase.r.converted == ReadBetween(s.disk.logs, LastPoint(s.disk).logNumber, Position(0, 0), s.phase.r.at))
  }

  /** The same logs or fewer, each with the same records or fewer. */
  ghost predicate LogsWithin(logs: map<nat, Log>, logs': map<nat, Log>, low: nat) {
    forall n :: n in logs' && low <= n ==> logs'[n].records == [] || (n in logs && logs'[n].records <= logs[n].records)
  }

  lemma OrderWithin(logs: map<nat, Log>, low: nat, logs': map<nat, Log>, low': nat)
    requires LogsInOrder(logs, low) && low <= low' && LogsWithin(logs, logs', low')
    ensures LogsInOrder(logs', low')
  {
    forall p | IsRecord(logs', low', p) ensures IsRecord(logs, low, p) && RecordAt(logs', p) == RecordAt(logs, p) {
    }
  }

  lemma OrderAppend(logs: map<nat, Log>, low: nat, f: nat, g: Group)
    requires LogsInOrder(logs, low) && f in logs && (forall n :: n in logs ==> n <= f)
      && AllNewer(g, Ops(LogsFrom(logs, low)))
    ensures LogsInOrder(logs[f := logs[f].(records := logs[f].records + [g])], low)
  {
    var logs' := logs[f := logs[f].(records := logs[f].records + [g])];
    forall p, q | IsRecord(logs', low, p) && IsRecord(logs', low, q) && Earlier(p, q)
      ensures AllNewer(RecordAt(logs', q), RecordAt(logs', p))
    {
      assert IsRecord(logs, low, p) && RecordAt(logs', p) == RecordAt(logs, p);
      if IsRecord(logs, low, q) {
        assert RecordAt(logs', q) == RecordAt(logs, q);
      } else {
        assert RecordAt(logs', q) == g && RecordAt(logs, p) in LogsFrom(logs, low);
      }
    }
  }

  lemma ReadOn(logs: map<nat, Log>, low: nat, middle: Position, end: Position)
    requires !Earlier(end, middle)
    ensures ReadBetween(logs, low, Position(0, 0), middle) + ReadBetween(logs, low, middle, end)
      == ReadBetween(logs, low, Position(0, 0), end)
  {
    forall g | g in ReadBetween(logs, low, Position(0, 0), end)
      ensures g in ReadBetween(logs, low, Position(0, 0), middle) + ReadBetween(logs, low, middle, end)
    {
      var n, i :| n in logs && low <= n && 0 <= i < |logs[n].records| && Earlier(Position(n, i), end)
        && logs[n].records[i] == g;
      assert !Earlier(Position(n, i), Position(0, 0));
      assert Earlier(Position(n, i), middle) || !Earlier(Position(n, i), middle);
    }
    forall g | g in ReadBetween(logs, low, Position(0, 0), middle) + ReadBetween(logs, low, middle, end)
      ensures g in ReadBetween(logs, low, Position(0, 0), end)
    {
      var n, i :| n in logs && low <= n && 0 <= i < |logs[n].records| && logs[n].records[i] == g
        && (Earlier(Position(n, i), middle) || Earlier(Position(n, i), end));
      assert Earlier(Position(n, i), end) && !Earlier(Position(n, i), Position(0, 0));
    }
  }

  lemma PointsOrdered(s: State)
    requires Inv(s)
    ensures PointsExist(s.disk) && SyncedPoint(s.disk).logNumber <= LastPoint(s.disk).logNumber
  {
  }

  lemma CrashKeepsOrder(s: State, s': State)
    requires Inv(s) && OrderGood(s) && Crash(s, s')
    ensures OrderGood(s')
  {
    PointsOrdered(s);
    var d, d' := s.disk, s'.disk;
    assert forall n :: n in d'.logs ==> n in d.logs && CrashedLog(d.logs[n], d'.logs[n]);
    var m, k := d.manifests[d.current], d'.manifests[d'.current];
    assert |k.points| == m.synced || |k.points| == |m.points|;
    assert SyncedPoint(d') == m.points[|k.points| - 1];
    OrderWithin(d.logs, SyncedPoint(d).logNumber, d'.logs, SyncedPoint(d').logNumber);
  }

  lemma OpeningKeepsOrder(s: State, s': State)
    requires Inv(s) && OrderGood(s) && s.phase.Opening? && s'.phase.Opening?
      && RecoveryStep(s.disk, s.phase.r, s'.disk, s'.phase.r)
    ensures OrderGood(s')
  {
    var d, r, d', r' := s.disk, s.phase.r, s'.disk, s'.phase.r;
    OpeningLogs(d, r, s.acked, s.issued, d', r');
    assert SyncedPoint(d') == SyncedPoint(d) && LastPoint(d') == LastPoint(d);
    OrderWithin(d.logs, SyncedPoint(d).logNumber, d'.logs, SyncedPoint(d').logNumber);
    if chunk :| ConvertGroups(d, r, d', r', chunk) {
      ReadOn(d.logs, LastPoint(d).logNumber, r.at, r'.at);
    }
  }

  /** Recovery adds nothing to the logs, and to the manifests only one that is not current yet. */
  lemma OpeningLogs(d: Disk, r: Recovery, acked: set<Group>, issued: set<Group>, d': Disk, r': Recovery)
    requires OpeningGood(d, r, acked, issued) && RecoveryStep(d, r, d', r')
    ensures d'.current == d.current && d.current in d'.manifests && d'.manifests[d.current] == d.manifests[d.current]
    ensures LogsWithin(d.logs, d'.logs, 0) && (d'.logs == d.logs || r'.newLog.Some?)
    ensures !(exists chunk :: ConvertGroups(d, r, d', r', chunk)) && r'.newLog == None ==>
      r'.at == r.at && r'.converted == r.converted
  {
    assert d.current < LastPoint(d).nextFile;
  }

  lemma AppendKeepsOrder(d: Disk, m: Memory, acked: set<Group>, issued: set<Group>, d': Disk, m': Memory,
                         issued': set<Group>, g: Group, sync: bool)
    requires RunningGood(d, m, acked, issued) && AppendGroup(d, m, issued, d', m', issued', g, sync)
    requires LogsInOrder(d.logs, SyncedPoint(d).logNumber)
    ensures LogsInOrder(d'.logs, SyncedPoint(d).logNumber) && PointsExist(d') && SyncedPoint(d') == SyncedPoint(d)
  {
    NewGroup(d, m, acked, issued, g);
    OpsMonotone(LogsFrom(d.logs, SyncedPoint(d).logNumber), issued);
    OrderAppend(d.logs, SyncedPoint(d).logNumber, m.logfileNumber, g);
  }

  lemma WriteKeepsOrder(s: State, s': State)
    requires Inv(s) && OrderGood(s) && s.phase.Running? && s'.phase.Running?
    requires WriteStep(s.disk, s.phase.m, s.acked, s.issued, s'.disk, s'.phase.m, s'.acked, s'.issued)
    ensures OrderGood(s')
  {
    var d, m, d', m' := s.disk, s.phase.m, s'.disk, s'.phase.m;
    if g, sync :| AppendGroup(d, m, s.issued, d', m', s'.issued, g, sync) {
      AppendKeepsOrder(d, m, s.acked, s.issued, d', m', s'.issued, g, sync);
    } else {
      assert SyncedPoint(d') == SyncedPoint(d);
      OrderWithin(d.logs, SyncedPoint(d).logNumber, d'.logs, SyncedPoint(d).logNumber);
    }
  }

  /** What a step of the background thread does to the logs and to the first one still needed. */
  lemma BackgroundLogs(d: Disk, m: Memory, d': Disk, m': Memory)
    requires PointsExist(d) && ManifestGood(d, m) && NumbersGood(d, m) && BackgroundStep(d, m, d', m')
    ensures PointsExist(d') && SyncedPoint(d).logNumber <= SyncedPoint(d').logNumber && LogsWithin(d.logs, d'.logs, 0)
  {
    if FinishFlush(d, m, d', m') || FinishCompaction(d, m, d', m') || FinishMove(d, m, d', m') {
      FinishedLogs(d, d');
    } else if m' == m && DeleteObsolete(d, m, d') {
      DeletedLogs(d, m, d');
    } else {
      SteadyLogs(d, m, d', m');
    }
  }

  lemma SteadyLogs(d: Disk, m: Memory, d': Disk, m': Memory)
    requires PointsExist(d) && BackgroundStep(d, m, d', m') && !(m' == m && DeleteObsolete(d, m, d'))
    requires !FinishFlush(d, m, d', m') && !FinishCompaction(d, m, d', m') && !FinishMove(d, m, d', m')
    ensures PointsExist(d') && SyncedPoint(d') == SyncedPoint(d) && LogsWithin(d.logs, d'.logs, 0)
  {
  }

  lemma FinishedLogs(d: Disk, d': Disk)
    requires PointsExist(d) && SyncManifest(d, d')
    ensures PointsExist(d') && SyncedPoint(d') == LastPoint(d) && d'.logs == d.logs
  {
  }

  lemma DeletedLogs(d: Disk, m: Memory, d': Disk)
    requires PointsExist(d) && DeleteObsolete(d, m, d')
    ensures PointsExist(d') && SyncedPoint(d') == SyncedPoint(d) && LogsWithin(d.logs, d'.logs, 0)
  {
    assert d'.current == d.current && d'.manifests[d'.current] == d.manifests[d.current];
  }

  lemma BackgroundKeepsOrder(s: State, s': State)
    requires Inv(s) && OrderGood(s) && s.phase.Running? && s'.phase.Running?
    requires BackgroundStep(s.disk, s.phase.m, s'.disk, s'.phase.m)
    ensures OrderGood(s')
  {
    BackgroundLogs(s.disk, s.phase.m, s'.disk, s'.phase.m);
    OrderWithin(s.disk.logs, SyncedPoint(s.disk).logNumber, s'.disk.logs, SyncedPoint(s'.disk).logNumber);
  }

  lemma SwitchKeepsOrder(s: State, s': State)
    requires Inv(s) && OrderGood(s) && s.phase.Opening? && s'.phase.Running?
      && SwitchCurrent(s.disk, s.phase.r, s'.disk, s'.phase.m)
    ensures OrderGood(s')
  {
    var d, d' := s.disk, s'.disk;
    assert SyncedPoint(d') == s.phase.r.target.value;
    OrderWithin(d.logs, SyncedPoint(d).logNumber, d'.logs, SyncedPoint(d').logNumber);
  }

  lemma StepKeepsOrder(s: State, s': State)
    requires Inv(s) && OrderGood(s) && Next(s, s')
    ensures OrderGood(s')
  {
    if Crash(s, s') {
      CrashKeepsOrder(s, s');
    } else if s.phase == Down {
      assert ReadBetween(s.disk.logs, LastPoint(s.disk).logNumber, Position(0, 0), Position(0, 0)) == {};
    } else if s.phase.Opening? {
      if s'.phase.Opening? {
        OpeningKeepsOrder(s, s');
      } else {
        SwitchKeepsOrder(s, s');
      }
    } else if WriteStep(s.disk, s.phase.m, s.acked, s.issued, s'.disk, s'.phase.m, s'.acked, s'.issued) {
      WriteKeepsOrder(s, s');
    } else {
      BackgroundKeepsOrder(s, s');
    }
  }
}
