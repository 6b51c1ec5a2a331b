// A memtable flushed into a gap of a manual merge, as a run of the engine (db/db_impl.cc, db/version_set.cc).

module GapRun {
  import opened DbFormat
  import opened Meaning
  import opened Versions
  import opened DropRule
  import opened CompactionRun
  import opened CompactionMeaning
  import opened OverlappingInputs
  import opened PickCompaction
  import opened FlushLevel
  import opened CompactionWindow
  import opened LsmRun
  import opened BoundaryFiles
  import opened Runs

  const A1 := Entry(InternalKey(1.0, 1, Value), "a1")
  const B1 := Entry(InternalKey(3.0, 2, Value), "b1")
  const A2 := Entry(InternalKey(1.0, 3, Value), "a2")
  const B2 := Entry(InternalKey(3.0, 4, Value), "b2")
  const M := Entry(InternalKey(2.0, 5, Value), "m")

  const E1 := File(1, 1, A1.key, A1.key, [A1])
  const E2 := File(2, 1, B1.key, B1.key, [B1])
  const E3 := File(3, 1, A2.key, A2.key, [A2])
  const E4 := File(4, 1, B2.key, B2.key, [B2])
  const G := File(5, 1, M.key, M.key, [M])
  const O := File(6, 1, A2.key, B2.key, [A2, B2])

  lemma TwoFiles(f: File, g: File, r: Range)
    ensures FilesMeeting([f, g], r) == (if Meets(f, r) then [f] else []) + (if Meets(g, r) then [g] else [])
    ensures TotalFileSize([f, g]) == f.size + g.size && TotalFileSize([f, g][..1]) == f.size
    ensures FilesOf([f, g]) == {f, g}
  {
    OneFile(f, r);
    assert [f, g][..1] == [f];
  }

  /** A single write, a change of memtables, and the flush. */
  lemma WriteAndFlush(db: Db, e: Entry, level: nat, f: File, w: Version) returns (states: seq<Db>)
    requires db.mem == db.imm == [] && e.key.sequence == db.last + 1
    requires f.entries == [e] && f.smallest == f.largest == e.key && db.version[0] == []
    requires IsPickedLevel(db.version, e.key.user, e.key.user, db.maxFileSize, level)
      && Flushed(db.version, level, f, w)
    ensures IsRun(NextStep(), states) && |states| == 4 && states[0] == db
    ensures states[3] == db.(version := w, written := db.written + {e}, last := e.key.sequence)
  {
    states := WriteAndSwitch(db, e);
    var next := states[2].(imm := [], version := w);
    assert Flush(states[2], next, level, f);
    assert IsRun(NextStep(), [states[2], next]);
    JoinRuns(NextStep(), states, [states[2], next]);
    states := states + [states[2], next][1..];
  }

  lemma WriteAndSwitch(db: Db, e: Entry) returns (states: seq<Db>)
    requires db.mem == db.imm == [] && e.key.sequence == db.last + 1
    ensures IsRun(NextStep(), states) && |states| == 3 && states[0] == db
    ensures states[2] == db.(imm := [e], written := db.written + {e}, last := e.key.sequence)
  {
    var a := db.(mem := [e], written := db.written + {e}, last := e.key.sequence);
    var b := a.(mem := [], imm := [e]);
    assert EntrySet([e]) == EntrySet([]) + {e};
    assert Write(db, a, {e});
    MemoryStep(db, a);
    assert SwitchMemTable(a, b);
    MemoryStep(a, b);
    TwoSteps(NextStep(), db, a, b);
    states := [db, a, b];
  }

  /** Nothing overlaps the user key down to level 2, and little does in level 2. */
  lemma GoesToLevel2(v: Version, user: UserKey)
    requires v[0] == [] && v[3] == []
    requires (forall f :: f in v[1] ==> !Overlaps(f, user, user))
      && (forall f :: f in v[2] ==> !Overlaps(f, user, user))
    ensures IsPickedLevel(v, user, user, 10, 2)
  {
    var r := Range(Some(user), Some(user));
    forall f | f in v[2] ensures !Meets(f, r) {
      assert !Overlaps(f, user, user);
    }
    NoneMeeting(v[2], r);
    assert FilesMeeting(v[3], r) == [] && TotalFileSize([]) == 0;
    assert !StopsAt(v, 0, user, user, 10) && !StopsAt(v, 1, user, user, 10);
  }

  lemma {:induction false} NoneMeeting(files: seq<File>, r: Range)
    requires forall f :: f in files ==> !Meets(f, r)
    ensures FilesMeeting(files, r) == []
  {
    if files != [] {
      NoneMeeting(files[..|files| - 1], r);
    }
  }

  /** A file of level 2 is in the way. */
  lemma GoesToLevel1(v: Version, user: UserKey, f: File)
    requires v[0] == [] && (forall g :: g in v[1] ==> !Overlaps(g, user, user))
    requires f in v[2] && Overlaps(f, user, user)
      && TotalFileSize(FilesMeeting(v[2], Range(Some(user), Some(user)))) <= 100
    ensures IsPickedLevel(v, user, user, 10, 1)
  {
    assert Meets(f, Range(Some(user), Some(user)));
    assert !StopsAt(v, 0, user, user, 10) && StopsAt(v, 1, user, user, 10);
  }

  lemma FirstTable(v: Version, w: Version)
    requires v == Levels([], [], []) && w == Levels([], [E1], [])
    ensures IsPickedLevel(v, 1.0, 1.0, 10, 2) && Flushed(v, 2, E1, w)
  {
    GoesToLevel2(v, 1.0);
    assert FilesOf([]) == {} && FilesOf([E1]) == {E1};
  }

  lemma SecondTable(v: Version, w: Version)
    requires v == Levels([], [E1], []) && w == Levels([], [E1, E2], [])
    ensures IsPickedLevel(v, 3.0, 3.0, 10, 2) && Flushed(v, 2, E2, w)
  {
    GoesToLevel2(v, 3.0);
    assert FilesOf([E1]) == {E1} && FilesOf([E1, E2]) == {E1, E2};
  }

  lemma ThirdTable(v: Version, w: Version)
    requires v == Levels([], [E1, E2], []) && w == Levels([E3], [E1, E2], [])
    ensures IsPickedLevel(v, 1.0, 1.0, 10, 1) && Flushed(v, 1, E3, w)
  {
    BelowIsSmall(1.0);
    GoesToLevel1(v, 1.0, E1);
    assert FilesOf([]) == {} && FilesOf([E3]) == {E3};
  }

  lemma BelowIsSmall(user: UserKey)
    ensures TotalFileSize(FilesMeeting([E1, E2], Range(Some(user), Some(user)))) <= 2
  {
    var r := Range(Some(user), Some(user));
    TwoFiles(E1, E2, r);
    OneFile(E1, r);
    OneFile(E2, r);
  }

  lemma FourthTable(v: Version, w: Version)
    requires v == Levels([E3], [E1, E2], []) && w == Levels([E3, E4], [E1, E2], [])
    ensures IsPickedLevel(v, 3.0, 3.0, 10, 1) && Flushed(v, 1, E4, w)
  {
    BelowIsSmall(3.0);
    GoesToLevel1(v, 3.0, E2);
    FourthIsThere(v, w);
  }

  lemma FourthIsThere(v: Version, w: Version)
    requires v == Levels([E3], [E1, E2], []) && w == Levels([E3, E4], [E1, E2], [])
    ensures Flushed(v, 1, E4, w)
  {
    assert FilesOf([E3]) == {E3} && FilesOf([E3, E4]) == {E3, E4};
  }

  /** The table for the key between all these goes down to level 2: nothing overlaps it. */
  lemma MiddleTable(v: Version, w: Version)
    requires v == Levels([E3, E4], [E1, E2], []) && w == Levels([E3, E4], [E1, G, E2], [])
    ensures IsPickedLevel(v, 2.0, 2.0, 10, 2) && Flushed(v, 2, G, w)
  {
    GoesToLevel2(v, 2.0);
    assert FilesOf([E1, E2]) == {E1, E2} && FilesOf([E1, G, E2]) == {E1, E2, G};
  }

  const GAP_PICK := Pick(1, [E3, E4], [E1, E2], [])

  /** A manual compaction of level 1 picks both of its files, and those of level 2 below them. */
  lemma PickWithGap(v: Version)
    requires v == Levels([E3, E4], [E1, E2], [])
    ensures ManualPick(v, 10, 1, Range(Some(1.0), Some(3.0)), GAP_PICK)
  {
    var r := Range(Some(1.0), Some(3.0));
    TwoFiles(E3, E4, r);
    assert IsOverlapping(v[1], 1, r, r, [E3, E4]);
    assert IsLimited(10, [E3, E4], [E3, E4]);
    SetupWithGap(v);
  }

  lemma Hulls()
    ensures IsHull([E3, E4], A2.key, B2.key)
    ensures IsHull([E3, E4] + [E1, E2], A2.key, B1.key)
  {
    assert E3 in [E3, E4] && E4 in [E3, E4];
    assert E3 in [E3, E4] + [E1, E2] && E2 in [E3, E4] + [E1, E2];
  }

  lemma SetupWithGap(v: Version)
    requires v == Levels([E3, E4], [E1, E2], [])
    ensures IsSetup(v, 10, 1, [E3, E4], GAP_PICK)
  {
    NextOfGap(v);
    ExpansionOfGap(v);
    GapGrandparents(v);
  }

  lemma NextOfGap(v: Version)
    requires v == Levels([E3, E4], [E1, E2], [])
    ensures IsNextOf(v, 1, [E3, E4], [E1, E2])
  {
    Hulls();
    TwoFiles(E1, E2, UserRange(A2.key, B2.key));
  }

  /** There is nothing to expand to. */
  lemma ExpansionOfGap(v: Version)
    requires v == Levels([E3, E4], [E1, E2], [])
    ensures IsExpansion(v, 1, [E3, E4], [E1, E2], [E3, E4])
    ensures IsChoice(v, 10, 1, [E3, E4], [E1, E2], [E3, E4], GAP_PICK)
  {
    var r := UserRange(A2.key, B1.key);
    Hulls();
    TwoFiles(E3, E4, r);
    assert IsOverlapping(v[1], 1, r, r, [E3, E4]);
  }

  lemma GapGrandparents(v: Version)
    requires v == Levels([E3, E4], [E1, E2], [])
    ensures IsGrandparents(v, GAP_PICK)
  {
    Hulls();
    assert FilesMeeting(v[3], UserRange(A2.key, B1.key)) == [];
  }

  ghost function GapMerge(): Merge {
    Merge(Levels([E3, E4], [E1, E2], []), 1, {E3, E4}, {E1, E2}, 1.0, 3.0, [A2, A1, B2, B1], 5)
  }

  lemma InputsMerge()
    ensures IsMerge([A2, A1, B2, B1], {E3, E4} + {E1, E2})
  {
    var files := {E3, E4} + {E1, E2};
    assert E1 in files && E2 in files && E3 in files && E4 in files;
    assert A1 in E1.entries && B1 in E2.entries && A2 in E3.entries && B2 in E4.entries;
  }

  lemma StartsInGap(db: Db)
    requires db.version == Levels([E3, E4], [E1, E2], []) && db.snapshots == [] && db.last == 5
    requires db.merging == None && db.maxFileSize == 10
    ensures StartManual(db, db.(merging := Some(GapMerge())), GapMerge())
  {
    PickWithGap(db.version);
    CarriesGap(db);
  }

  lemma CarriesGap(db: Db)
    requires db.version == Levels([E3, E4], [E1, E2], []) && db.snapshots == [] && db.last == 5
    ensures Carries(db, GAP_PICK, GapMerge())
  {
    Hulls();
    InputsMerge();
    TwoFiles(E1, E2, Range(None, None));
    TwoFiles(E3, E4, Range(None, None));
  }

  /** The merge keeps the newer entries, in one file. */
  lemma GapOutput()
    ensures exists numbers :: Merged(GapMerge(), [O], numbers)
  {
    var numbers: nat -> nat := _ => 6;
    var base, input := BaseTest(GapMerge().base, 1), [A2, A1, B2, B1];
    assert Kept(input, 5, base, 1) == [A2];
    assert Kept(input, 5, base, 2) == [A2];
    assert Kept(input, 5, base, 3) == [A2, B2];
    assert Kept(input, 5, base, 4) == [A2, B2];
    assert [O][..0] == [] && Flatten([O]) == [A2, B2];
    assert Merged(GapMerge(), [O], numbers);
  }

  lemma InstallsAround(v: Version, w: Version)
    requires v == Levels([E3, E4], [E1, G, E2], []) && w == Levels([], [O, G], [])
    ensures Installed(v, 1, {E3, E4}, {E1, E2}, FilesOf([O]), w) && !WellFormed(w)
  {
    TwoFiles(E3, E4, Range(None, None));
    TwoFiles(O, G, Range(None, None));
    assert FilesOf([]) == {} && FilesOf([O]) == {O} && FilesOf([E1, G, E2]) == {E1, E2, G};
    assert O in FilesOf(w[2]) && G in FilesOf(w[2]);
  }

  /** Two tables at level 2 with a gap between them. */
  lemma TablesBelow(db: Db) returns (states: seq<Db>)
    requires Init(db) && db.last == 0 && db.maxFileSize == 10
    ensures IsRun(NextStep(), states) && |states| == 7 && states[0] == db
    ensures states[6] == db.(version := Levels([], [E1, E2], []), written := db.written + {A1} + {B1}, last := 2)
  {
    var v1, v2 := Levels([], [E1], []), Levels([], [E1, E2], []);
    assert Levels([], [], []) == seq(NUM_LEVELS, _ => []);
    FirstTable(db.version, v1);
    states := WriteAndFlush(db, A1, 2, E1, v1);
    SecondTable(v1, v2);
    var more := WriteAndFlush(states[3], B1, 2, E2, v2);
    JoinRuns(NextStep(), states, more);
    states := states + more[1..];
  }

  /** Two more above them. */
  lemma TablesAbove(db: Db) returns (states: seq<Db>)
    requires db.version == Levels([], [E1, E2], []) && db.mem == db.imm == [] && db.last == 2 && db.maxFileSize == 10
    ensures IsRun(NextStep(), states) && |states| == 7 && states[0] == db
    ensures states[6] == db.(version := Levels([E3, E4], [E1, E2], []), written := db.written + {A2} + {B2}, last := 4)
  {
    var v3, v4 := Levels([E3], [E1, E2], []), Levels([E3, E4], [E1, E2], []);
    ThirdTable(db.version, v3);
    states := WriteAndFlush(db, A2, 1, E3, v3);
    FourthTable(v3, v4);
    var more := WriteAndFlush(states[3], B2, 1, E4, v4);
    JoinRuns(NextStep(), states, more);
    states := states + more[1..];
  }

  lemma FlushesBetween(db: Db)
    requires db.version == Levels([E3, E4], [E1, E2], []) && db.imm == [M] && db.maxFileSize == 10
    ensures Flush(db, db.(imm := [], version := Levels([E3, E4], [E1, G, E2], [])), 2, G)
  {
    MiddleTable(db.version, Levels([E3, E4], [E1, G, E2], []));
  }

  ghost predicate InstallsOne(db: Db, next: Db) {
    exists numbers :: Install(db, next, [O], numbers)
  }

  lemma InstallsMerged(db: Db)
    requires db.version == Levels([E3, E4], [E1, G, E2], []) && db.merging == Some(GapMerge())
    ensures InstallsOne(db, db.(version := Levels([], [O, G], []), merging := None))
      && !WellFormed(Levels([], [O, G], []))
  {
    GapOutput();
    var numbers :| Merged(GapMerge(), [O], numbers);
    InstallsAround(db.version, Levels([], [O, G], []));
    assert Install(db, db.(version := Levels([], [O, G], []), merging := None), [O], numbers);
  }

  /** A manual merge starts, a memtable is flushed, the merge is installed, and levels overlap. */
  ghost predicate Overlapped(a: Db, b: Db, c: Db, d: Db) {
    StartManual(a, b, GapMerge()) && Flush(b, c, 2, G) && InstallsOne(c, d) && !WellFormed(d.version)
  }

  lemma StartIsStep(a: Db, b: Db)
    requires StartManual(a, b, GapMerge())
    ensures NextStep()(a, b)
  {
    assert MergeStep(a, b);
  }

  lemma FlushIsStep(a: Db, b: Db)
    requires Flush(a, b, 2, G)
    ensures NextStep()(a, b)
  {
  }

  lemma InstallIsStep(a: Db, b: Db)
    requires InstallsOne(a, b)
    ensures NextStep()(a, b)
  {
    assert MergeStep(a, b);
  }

  lemma OverlappedIsRun(a: Db, b: Db, c: Db, d: Db)
    requires Overlapped(a, b, c, d)
    ensures IsRun(NextStep(), [a, b, c, d])
  {
    StartIsStep(a, b);
    FlushIsStep(b, c);
    InstallIsStep(c, d);
    ThreeSteps(NextStep(), a, b, c, d);
  }

  lemma ManualMerge(a: Db) returns (states: seq<Db>)
    requires a.version == Levels([E3, E4], [E1, E2], []) && a.imm == [M] && a.last == 5
    requires a.snapshots == [] && a.merging == None && a.maxFileSize == 10
    ensures IsRun(NextStep(), states) && |states| == 4 && states[0] == a
    ensures Overlapped(states[0], states[1], states[2], states[3])
  {
    var b := a.(merging := Some(GapMerge()));
    var c := b.(imm := [], version := Levels([E3, E4], [E1, G, E2], []));
    var d := c.(version := Levels([], [O, G], []), merging := None);
    StartsInGap(a);
    FlushesBetween(b);
    InstallsMerged(c);
    OverlappedIsRun(a, b, c, d);
    states := [a, b, c, d];
  }

  /** A write before it. */
  lemma MergeAround(db: Db) returns (states: seq<Db>)
    requires db.version == Levels([E3, E4], [E1, E2], []) && db.mem == db.imm == [] && db.last == 4
    requires db.snapshots == [] && db.merging == None && db.maxFileSize == 10
    ensures IsRun(NextStep(), states) && |states| == 6 && states[0] == db
    ensures Overlapped(states[2], states[3], states[4], states[5])
  {
    states := WriteAndSwitch(db, M);
    var more := ManualMerge(states[2]);
    JoinRuns(NextStep(), states, more);
    states := states + more[1..];
  }

  /** A run from the empty database, without snapshots: a manual merge starts, a memtable is flushed into
      the gap between its files, and the merge is installed around it. Level 2 has two files that overlap. */
  lemma FlushIntoGap() returns (states: seq<Db>)
    ensures Run(states) && |states| == 18 && Overlapped(states[14], states[15], states[16], states[17])
  {
    var db := Db([], [], Levels([], [], []), {}, [], 0, None, 10);
    assert Levels([], [], []) == seq(NUM_LEVELS, _ => []);
    states := TablesBelow(db);
    var above := TablesAbove(states[6]);
    JoinRuns(NextStep(), states, above);
    states := states + above[1..];
    var around := MergeAround(states[12]);
    JoinRuns(NextStep(), states, around);
    states := states + around[1..];
  }
}
