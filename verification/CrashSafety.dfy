// What holds in every state of every run, and after every crash (db/db_impl.cc, db/version_set.cc).

module CrashSafety {
  import opened DbFormat
  import opened Meaning
  import opened Versions
  import opened VersionGet
  import opened FlushLevel
  import opened CompactionWindow
  import opened Disks
  import opened DurableRun
  import opened DurableSteps
  import opened DurableRecovery
  import opened LogOrder
  import opened DurableLevels
  import opened SortedLists
  import opened Runs

  /** The groups are where they have to be, the logs in order, and the tables in levels. */
  ghost predicate Sound(s: State) {
    Inv(s) && OrderGood(s) && LevelsGood(s)
  }

  ghost function NextStep(): (State, State) -> bool {
    (s, t) => Next(s, t)
  }

  ghost predicate Run(states: seq<State>) {
    IsRun(NextStep(), states) && Init(states[0])
  }

  lemma NoFilesIsGood(v: Version)
    requires forall l :: 0 <= l < NUM_LEVELS ==> v[l] == []
    ensures GoodVersion(v) && Arranged(map[], {}, v)
  {
    assert FilesOf([]) == {};
  }

  lemma InitInv(s: State)
    requires Init(s)
    ensures Inv(s) && OrderGood(s)
  {
    assert LastPoint(s.disk) == SyncedPoint(s.disk) == FIRST_POINT;
    assert LogsFrom(s.disk.logs, 0) == {} && Ops({}) == {} && Content(s.disk.tables, {}) == {};
    assert Survivors(s.disk) == {};
    assert PointGood(s.disk, FIRST_POINT, {}, {});
  }

  lemma InitIsGood(s: State)
    requires Init(s)
    ensures Sound(s)
  {
    InitInv(s);
    assert forall l :: 0 <= l < NUM_LEVELS ==> NO_FILES[l] == [];
    NoFilesIsGood(NO_FILES);
    assert LastPoint(s.disk) == FIRST_POINT;
  }

  lemma NextKeepsSound(s: State, s': State)
    requires Sound(s) && Next(s, s')
    ensures Sound(s') && s.acked <= s'.acked
  {
    StepKeepsOrder(s, s');
    StepKeepsLevels(s, s');
    StepKeepsInv(s, s');
  }

  lemma RunKeepsInv(states: seq<State>, i: nat, j: nat)
    requires Run(states) && i <= j < |states|
    ensures Sound(states[j]) && states[i].acked <= states[j].acked
  {
    InitIsGood(states[0]);
    forall s, s' | Sound(s) && NextStep()(s, s') ensures Sound(s') && s.acked <= s'.acked {
      NextKeepsSound(s, s');
    }
    KeptByRun(NextStep(), s => Sound(s), states, j);
    GrowsAlongRun(NextStep(), s => Sound(s), (s: State) => s.acked, states, i, j);
  }

  /** After a crash at any point of any run, what is on disk brings back every group that was ever
      acknowledged as synced, groups wholly or not at all, and no table it names is missing. The tables
      lie in levels that are disjoint and in age order. */
  lemma NothingSyncedIsLost(states: seq<State>, i: nat, after: Disk)
    requires Run(states) && i < |states| && CrashOf(states[|states| - 1].disk, after)
    ensures PointsExist(after) && Settled(after)
    ensures states[i].acked <= Survivors(after) <= states[|states| - 1].issued
    ensures TablesExist(after.tables, LastPoint(after).tables, LastPoint(after).nextFile)
    ensures PointLevels(after, LastPoint(after))
    ensures LastPoint(after).floor <= LastPoint(after).lastSequence
    ensures Represents(Ops(LogsFrom(after.logs,
                                    LastPoint(after).logNumber)) + Content(after.tables, LastPoint(after).tables),
                       Ops(Survivors(after)), LastPoint(after).floor)
  {
    RunKeepsInv(states, i, |states| - 1);
    var s := states[|states| - 1];
    InvHasDisk(s);
    CrashIsRecoverable(s.disk, after, s.acked, s.issued);
    var t := State(after, Down, Survivors(after), s.acked);
    assert Crash(s, t);
    CrashKeepsLevels(s, t);
  }

  /** A running engine answers from memtables and tables as all its finished groups together would. */
  lemma RunningAnswers(d: Disk, m: Memory, acked: set<Group>, issued: set<Group>)
    requires RunningGood(d, m, acked, issued)
    ensures Represents(Ops(m.mem) + (Ops(ImmGroups(m)) + Content(d.tables, m.version)), Ops(issued - WritingGroups(m)),
                       SyncedPoint(d).floor)
  {
    var p := SyncedPoint(d);
    WritingIsApart(d, m, issued, p.flushed);
    OpsMonotone(p.flushed + ImmGroups(m) + m.mem, issued);
    StackedAnswers(Content(d.tables, m.version), p.flushed, ImmGroups(m), m.mem, p.floor);
  }

  /** Two memtables of newer groups on top of tables that stand for the older ones. */
  lemma StackedAnswers(stored: set<Entry>, flushed: set<Group>, imm: set<Group>, mem: set<Group>, floor: nat)
    requires stored <= Ops(flushed) && Represents(stored, Ops(flushed), floor)
      && DistinctSequences(Ops(flushed + imm + mem))
    requires AllNewer(Ops(imm), Ops(flushed)) && AllNewer(Ops(mem), Ops(flushed + imm))
    ensures Represents(Ops(mem) + (Ops(imm) + stored), Ops(flushed + imm + mem), floor)
  {
    OpsUnion(flushed, imm);
    OpsUnion(flushed + imm, mem);
    var older := Ops(imm) + Ops(flushed);
    assert Ops(flushed + imm + mem) == Ops(mem) + older;
    forall user, snapshot: nat | floor <= snapshot
      ensures Visible(Ops(mem) + (Ops(imm) + stored), user, snapshot) == Visible(Ops(mem) + older, user, snapshot)
    {
      SameUnder(Ops(imm), stored, Ops(flushed), user, snapshot);
      SameUnder(Ops(mem), Ops(imm) + stored, older, user, snapshot);
    }
  }

  /** The group being written is not among the older ones, unless it is empty. */
  lemma WritingIsApart(d: Disk, m: Memory, issued: set<Group>, flushed: set<Group>)
    requires GroupsPlaced(d, m, issued, flushed)
    ensures Ops(issued - WritingGroups(m)) == Ops(flushed + ImmGroups(m) + m.mem)
  {
    var older := flushed + ImmGroups(m) + m.mem;
    if m.writing.Appended? {
      var g := m.writing.group;
      OpsOne(g);
      if g in older {
        assert g <= Ops(older);
        assert g == {};
      }
    }
  }

  /** DBImpl::Get on a running engine: memtable, immutable memtable, then level by level. */
  ghost function LookUp(m: Memory, user: UserKey, snapshot: SequenceNumber): Option<string> {
    if exists e :: e in Ops(m.mem) && Candidate(e, user, snapshot) then Visible(Ops(m.mem), user, snapshot)
    else if exists e :: e in Ops(ImmGroups(m))
                        && Candidate(e, user, snapshot) then Visible(Ops(ImmGroups(m)), user, snapshot)
    else FoundByLevel(m.levels, user, snapshot, 0)
  }

  /** In every state of every run, after any number of crashes and recoveries, lookups find what all the
      finished groups together say. */
  lemma LookUpAnswers(s: State, user: UserKey, snapshot: SequenceNumber)
    requires Sound(s) && s.phase.Running? && SyncedPoint(s.disk).floor <= snapshot
    ensures LookUp(s.phase.m, user, snapshot) == Visible(Ops(s.issued - WritingGroups(s.phase.m)), user, snapshot)
  {
    var d, m := s.disk, s.phase.m;
    RunningAnswers(d, m, s.acked, s.issued);
    PointIsDistinct(d, SyncedPoint(d), s.acked, s.issued);
    ArrangedContent(d.tables, m.version, m.levels);
    FoundIsVisible(m.levels, user, snapshot, 0);
    LookUpStack(d, m, s.acked, s.issued, user, snapshot);
  }

  lemma LookUpStack(d: Disk, m: Memory, acked: set<Group>, issued: set<Group>, user: UserKey, snapshot: SequenceNumber)
    requires RunningGood(d, m, acked, issued)
    ensures var tables := Content(d.tables, m.version);
      Visible(Ops(m.mem) + (Ops(ImmGroups(m)) + tables), user, snapshot) ==
      if exists e :: e in Ops(m.mem) && Candidate(e, user, snapshot) then Visible(Ops(m.mem), user, snapshot)
      else if exists e :: e in Ops(ImmGroups(m))
                          && Candidate(e, user, snapshot) then Visible(Ops(ImmGroups(m)), user, snapshot)
      else Visible(tables, user, snapshot)
  {
    var p := SyncedPoint(d);
    var tables := Content(d.tables, m.version);
    OpsUnion(p.flushed, ImmGroups(m));
    OpsUnion(p.flushed + ImmGroups(m), m.mem);
    OpsMonotone(p.flushed + ImmGroups(m) + m.mem, issued);
    VisibleOfUnion(Ops(m.mem), Ops(ImmGroups(m)) + tables, user, snapshot);
    VisibleOfUnion(Ops(ImmGroups(m)), tables, user, snapshot);
  }

  /** Deleting obsolete files spares every table of a live version or pending output, every log
      recovery would read, and the manifest it would read them from. */
  lemma DeletionSparesTheNeeded(d: Disk, m: Memory, d': Disk, n: nat)
    requires PointsExist(d) && ManifestGood(d, m) && DeleteObsolete(d, m, d')
    ensures n in d.tables && Live(m, n) ==> n in d'.tables && d'.tables[n] == d.tables[n]
    ensures n in d.logs && LastPoint(d).logNumber <= n ==> n in d'.logs && d'.logs[n] == d.logs[n]
    ensures PointsExist(d') && d'.manifests[d'.current] == d.manifests[d.current]
    ensures Survivors(d') == Survivors(d)
  {
    assert LastPoint(d).logNumber == m.logNumber;
    if k :| k in d.logs && k < m.logNumber && d' == d.(logs := d.logs - {k}) {
      DropLog(d.logs, k, m.logNumber);
    } else {
      assert d'.logs == d.logs;
    }
    assert d'.manifests[d'.current] == d.manifests[d.current];
  }

  lemma {:induction false} LogBound(logs: set<nat>) returns (n: nat)
    ensures forall k :: k in logs ==> k < n
  {
    n := 0;
    if logs != {} {
      var k :| k in logs;
      n := LogBound(logs - {k});
      n := if n > k then n else k + 1;
      forall j | j in logs ensures j < n {
        assert j == k || j in logs - {k};
      }
    }
  }

  lemma {:induction false} NewestSequence(entries: set<Entry>) returns (n: nat)
    ensures Below(entries, n) && (n == 0 || exists e :: e in entries && e.key.sequence == n)
    decreases |entries|
  {
    n := 0;
    if entries != {} {
      var e :| e in entries;
      n := NewestSequence(entries - {e});
      n := if n > e.key.sequence then n else e.key.sequence;
    }
  }

  /** A table file for any entries with numbers of their own. */
  lemma MakeFile(entries: set<Entry>, number: nat) returns (f: File)
    requires entries != {} && DistinctSequences(entries)
    ensures f.number == number && ValidFile(f) && EntrySet(f.entries) == entries
  {
    var less := (d: Entry, e: Entry) => Before(d.key, e.key);
    var list := SortSet(less, entries);
    var e :| e in entries;
    assert e in list;
    f := File(number, |list|, list[0].key, list[|list| - 1].key, list);
    assert forall i, j :: 0 <= i < j < |list| ==> less(list[i], list[j]);
  }

  lemma MakeLevel0(v: Version, f: File) returns (w: Version)
    requires WellFormed(v) && forall g :: g in v[0] ==> g.number < f.number
    ensures Flushed(v, 0, f, w)
  {
    var less := (g: File, h: File) => BySmallestKey(g, h);
    assert SortedBy(less, v[0]) by {
      assert SortedLevel(v[0]);
      assert forall i, j :: 0 <= i < j < |v[0]| ==> less(v[0][i], v[0][j]);
    }
    var files := Insert(less, v[0], f);
    w := v[0 := files];
    assert forall i, j :: 0 <= i < j < |files| ==> less(files[i], files[j]);
    assert FilesOf(files) == FilesOf(v[0]) + {f};
  }

  lemma ReadAll(logs: map<nat, Log>, low: nat, bound: nat)
    requires forall n :: n in logs ==> n < bound
    ensures ReadBetween(logs, low, Position(0, 0), Position(bound, 0)) == LogsFrom(logs, low)
  {
    forall g | g in LogsFrom(logs, low) ensures g in ReadBetween(logs, low, Position(0, 0), Position(bound, 0)) {
      var n, i :| n in logs && low <= n && 0 <= i < |logs[n].records| && logs[n].records[i] == g;
      assert !Earlier(Position(n, i), Position(0, 0)) && Earlier(Position(n, i), Position(bound, 0));
    }
  }

  /** The manifest says what it said. */
  ghost predicate SamePoint(s: State, t: State) {
    PointsExist(s.disk) && PointsExist(t.disk) && LastPoint(t.disk) == LastPoint(s.disk)
  }

  /** All logs have been read, and what they hold is one table. */
  function Converted(s: State, chunk: set<Group>, end: Position, w: Version): State
    requires s.phase.Opening?
  {
    var d, r := s.disk, s.phase.r;
    var d' := if Ops(chunk) == {} then d else WithTable(d, r.nextFile, Table(Ops(chunk), true));
    s.(disk := d', phase :=
       Opening(r.(nextFile := r.nextFile + 1, at := end, converted := r.converted + chunk, levels := w,
                                       newTables := r.newTables + if Ops(chunk) == {} then {} else {r.nextFile})))
  }

  lemma ConvertAll(s: State) returns (t: State)
    requires Sound(s) && s.phase.Opening? && s.phase.r.newLog == None && s.phase.r.converted == {}
      && s.phase.r.at == Position(0, 0)
    ensures Next(s, t) && Sound(t) && t.issued == s.issued && t.acked == s.acked && t.phase.Opening?
      && t.phase.r.newLog == None
    ensures SamePoint(s, t) && t.phase.r.converted == LogsFrom(t.disk.logs, LastPoint(t.disk).logNumber)
  {
    var bound := LogBound(s.disk.logs.Keys);
    var chunk := LogsFrom(s.disk.logs, LastPoint(s.disk).logNumber);
    var w := ConvertedLevels(s, chunk);
    t := Converted(s, chunk, Position(bound, 0), w);
    ConvertIsNext(s, chunk, bound, w);
    NextKeepsSound(s, t);
  }

  lemma ConvertIsNext(s: State, chunk: set<Group>, bound: nat, w: Version)
    requires s.phase.Opening? && s.phase.r.newLog == None && s.phase.r.converted == {} && s.phase.r.at == Position(0, 0)
    requires PointsExist(s.disk) && chunk == LogsFrom(s.disk.logs, LastPoint(s.disk).logNumber)
    requires if Ops(chunk) == {} then w == s.phase.r.levels else NewLevel0(s.phase.r, w, Ops(chunk))
    requires forall n :: n in s.disk.logs ==> n < bound
    ensures var t := Converted(s, chunk, Position(bound, 0), w); Next(s, t) && SamePoint(s, t)
                                                                 && t.phase.r.converted == chunk
  {
    ReadAll(s.disk.logs, LastPoint(s.disk).logNumber, bound);
    var t := Converted(s, chunk, Position(bound, 0), w);
    assert {} + chunk == chunk;
    assert ConvertGroups(s.disk, s.phase.r, t.disk, t.phase.r, chunk);
  }

  lemma ConvertedLevels(s: State, chunk: set<Group>) returns (w: Version)
    requires Sound(s) && s.phase.Opening? && chunk <= s.issued
    ensures if Ops(chunk) == {} then w == s.phase.r.levels else NewLevel0(s.phase.r, w, Ops(chunk))
  {
    var r, p := s.phase.r, LastPoint(s.disk);
    w := r.levels;
    if Ops(chunk) != {} {
      OpsMonotone(chunk, s.issued);
      var f := MakeFile(Ops(chunk), r.nextFile);
      forall g | g in r.levels[0] ensures g.number < f.number {
        assert g.number in p.tables + r.newTables;
      }
      w := MakeLevel0(r.levels, f);
    }
  }

  lemma RaiseNumber(s: State) returns (t: State)
    requires Sound(s) && s.phase.Opening? && s.phase.r.newLog == None
    ensures Next(s, t) && Sound(t) && t.disk == s.disk && t.issued == s.issued && t.acked == s.acked
    ensures t.phase.Opening? && t.phase.r.newLog == None && t.phase.r.converted == s.phase.r.converted
      && t.phase.r.target == s.phase.r.target
    ensures SamePoint(s, t) && forall n :: n in t.disk.logs ==> n < t.phase.r.nextFile
  {
    var bound := LogBound(s.disk.logs.Keys);
    var r := s.phase.r;
    t := s.(phase := Opening(r.(nextFile := if bound > r.nextFile then bound else r.nextFile)));
    assert MarkUsed(r, t.phase.r);
    NextKeepsSound(s, t);
    forall n | n in t.disk.logs ensures n < t.phase.r.nextFile {
      assert n in s.disk.logs.Keys;
    }
  }

  lemma StartLog(s: State) returns (t: State)
    requires Sound(s) && s.phase.Opening? && s.phase.r.newLog == None && s.phase.r.target == None
    requires s.phase.r.converted == LogsFrom(s.disk.logs, LastPoint(s.disk).logNumber)
    requires forall n :: n in s.disk.logs ==> n < s.phase.r.nextFile
    ensures Next(s, t) && Sound(t) && t.issued == s.issued && t.acked == s.acked && t.phase.Opening?
    ensures SamePoint(s, t) && t.phase.r.newLog.Some? && t.phase.r.target == None
  {
    var d, r := s.disk, s.phase.r;
    t := s.(disk := WithLog(d, r.nextFile, Log([], 0)), phase :=
            Opening(r.(newLog := Some(r.nextFile), nextFile := r.nextFile + 1)));
    assert CreateLog(d, r, t.disk, t.phase.r);
    NextKeepsSound(s, t);
  }

  lemma WriteTarget(s: State) returns (t: State)
    requires Sound(s) && s.phase.Opening? && s.phase.r.newLog.Some? && s.phase.r.target == None
    ensures Next(s, t) && Sound(t) && t.issued == s.issued && t.acked == s.acked && t.phase.Opening?
      && t.phase.r.target.Some?
    ensures SamePoint(s, t)
  {
    var d, r, p := s.disk, s.phase.r, LastPoint(s.disk);
    var n := NewestSequence(Ops(r.converted));
    var last := if n > p.lastSequence then n else p.lastSequence;
    var target := Point(p.tables + r.newTables, r.levels, r.newLog.value, r.nextFile, last, p.floor,
                        p.flushed + r.converted);
    t := s.(disk := WithManifest(d, p.nextFile, ManifestFile([target], 1)), phase :=
            Opening(r.(target := Some(target))));
    assert IsTarget(d, r, target);
    WriteIsNext(s, t, target);
    NextKeepsSound(s, t);
  }

  lemma WriteIsNext(s: State, t: State, target: Point)
    requires s.phase.Opening? && s.phase.r.newLog.Some? && s.phase.r.target == None && PointsExist(s.disk)
    requires s.disk.current < LastPoint(s.disk).nextFile && IsTarget(s.disk, s.phase.r, target)
    requires t == s.(disk := WithManifest(s.disk, LastPoint(s.disk).nextFile, ManifestFile([target], 1)),
                     phase := Opening(s.phase.r.(target := Some(target))))
    ensures Next(s, t) && SamePoint(s, t)
  {
    assert WriteManifest(s.disk, s.phase.r, t.disk, t.phase.r, target);
  }

  /** A running engine that has done nothing yet; its last sequence number is one it has found. */
  ghost predicate JustOpened(t: State, p: Point) {
    && t.phase.Running? && t.phase.m.writing == NoWrite && t.phase.m.imm == None && t.phase.m.installing == NoInstall
    && (t.phase.m.lastSequence == p.lastSequence
        || exists e :: e in Ops(t.issued) && e.key.sequence == t.phase.m.lastSequence)
  }

  lemma OpenUp(s: State) returns (t: State)
    requires Sound(s) && s.phase.Opening? && s.phase.r.target.Some?
    ensures Next(s, t) && Sound(t) && t.issued == s.issued && t.acked == s.acked
    ensures PointsExist(s.disk) && JustOpened(t, LastPoint(s.disk))
  {
    OpsMonotone(s.phase.r.converted, s.issued);
    t := s.(disk := s.disk.(current := LastPoint(s.disk).nextFile), phase :=
            Running(OpenedMemory(s.phase.r.target.value)));
    assert SwitchCurrent(s.disk, s.phase.r, t.disk, t.phase.m);
    NextKeepsSound(s, t);
  }

  /** The logs become tables. */
  lemma RecoverLogs(s: State) returns (states: seq<State>)
    requires Sound(s) && s.phase == Down
    ensures IsRun(NextStep(), states) && states[0] == s
    ensures var t := states[|states| - 1];
            && Sound(t) && t.phase.Opening? && t.phase.r.newLog == None && t.issued == s.issued && t.acked == s.acked
              && SamePoint(s, t)
            && t.phase.r.converted == LogsFrom(t.disk.logs, LastPoint(t.disk).logNumber)
  {
    var a := BeginOpening(s);
    var b := ConvertAll(a);
    states := [s, a, b];
    assert NextStep()(s, a) && NextStep()(a, b);
  }

  /** A new log. */
  lemma MakeLog(s: State) returns (states: seq<State>)
    requires Sound(s) && s.phase.Opening? && s.phase.r.newLog == None
    requires s.phase.r.converted == LogsFrom(s.disk.logs, LastPoint(s.disk).logNumber)
    ensures IsRun(NextStep(), states) && states[0] == s
    ensures var t := states[|states| - 1];
            && Sound(t) && t.phase.Opening? && t.phase.r.newLog.Some? && t.phase.r.target == None
              && t.issued == s.issued
            && t.acked == s.acked && SamePoint(s, t)
  {
    OpeningHasNoTarget(s);
    var a := RaiseNumber(s);
    var b := StartLog(a);
    states := [s, a, b];
    assert NextStep()(s, a) && NextStep()(a, b);
  }

  /** A new manifest, and CURRENT names it. */
  lemma MakeManifest(s: State) returns (states: seq<State>)
    requires Sound(s) && s.phase.Opening? && s.phase.r.newLog.Some? && s.phase.r.target == None
    ensures IsRun(NextStep(), states) && states[0] == s
    ensures var t := states[|states| - 1];
            PointsExist(s.disk) && Sound(t) && JustOpened(t, LastPoint(s.disk)) && t.issued == s.issued
              && t.acked == s.acked
  {
    var a := WriteTarget(s);
    var b := OpenUp(a);
    states := [s, a, b];
    TwoSteps(NextStep(), s, a, b);
  }

  /** From whatever a crash has left, recovery can be carried through; it ends with an engine that has
      every surviving group, and no other. */
  lemma RecoveryCompletes(s: State) returns (states: seq<State>)
    requires Sound(s) && s.phase == Down
    ensures IsRun(NextStep(), states) && states[0] == s
    ensures var t := states[|states| - 1];
            PointsExist(s.disk) && Sound(t) && JustOpened(t, LastPoint(s.disk)) && t.issued == s.issued
              && t.acked == s.acked
    ensures PointsExist(s.disk) && s.issued == Survivors(s.disk)
  {
    var first := RecoverLogs(s);
    var second := MakeLog(first[|first| - 1]);
    JoinRuns(NextStep(), first, second);
    states := first + second[1..];
    var third := MakeManifest(states[|states| - 1]);
    JoinRuns(NextStep(), states, third);
    states := states + third[1..];
  }

  lemma BeginOpening(s: State) returns (t: State)
    requires Sound(s) && s.phase == Down
    ensures Next(s, t) && Sound(t) && t.issued == s.issued && t.acked == s.acked
    ensures t.phase.Opening? && t.phase.r.newLog == None && t.phase.r.converted == {}
    ensures t.phase.r.at == Position(0, 0) && SamePoint(s, t)
  {
    t := s.(phase := Opening(OpenedAt(LastPoint(s.disk))));
    NextKeepsSound(s, t);
  }

  lemma OpeningHasNoTarget(s: State)
    requires Sound(s) && s.phase.Opening? && s.phase.r.newLog == None
    ensures s.phase.r.target == None
  {
  }
}
