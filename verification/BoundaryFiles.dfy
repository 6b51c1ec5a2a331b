// What happens where a user key is spread over two files of a level: picks that the code makes, and
// what they lose (db/version_set.cc, db/db_impl.cc).

module BoundaryFiles {
  import opened DbFormat
  import opened Meaning
  import opened Versions
  import opened VersionGet
  import opened DropRule
  import opened CompactionRun
  import opened CompactionMeaning
  import opened OverlappingInputs
  import opened PickCompaction
  import opened FlushLevel
  import opened CompactionWindow
  import opened LsmRun
  import opened Runs

  /** A version with files at these levels only. */
  ghost function Levels(l1: seq<File>, l2: seq<File>, l3: seq<File>): (v: Version)
    ensures v[0] == [] && v[1] == l1 && v[2] == l2 && v[3] == l3 && forall l :: 4 <= l < NUM_LEVELS ==> v[l] == []
  {
    seq(NUM_LEVELS, l => if l == 1 then l1 else if l == 2 then l2 else if l == 3 then l3 else [])
  }

  const A := Entry(InternalKey(1.0, 1, Value), "a")
  const B := Entry(InternalKey(3.0, 2, Value), "b")
  const OLD := Entry(InternalKey(2.0, 3, Value), "old")
  const MARKER := Entry(InternalKey(2.0, 4, Deletion), "")

  const F0 := File(1, 1, A.key, B.key, [A, B])
  const F1 := File(2, 1, MARKER.key, OLD.key, [MARKER, OLD])
  const O1 := File(3, 1, A.key, MARKER.key, [A, MARKER])
  const O2 := File(4, 1, OLD.key, B.key, [OLD, B])

  lemma OneFile(f: File, r: Range)
    ensures FilesMeeting([], r) == [] && TotalFileSize([]) == 0
    ensures FilesMeeting([f], r) == if Meets(f, r) then [f] else []
    ensures TotalFileSize([f]) == f.size && IsHull([f], f.smallest, f.largest)
  {
    assert [f][..0] == [] && f in [f];
  }

  lemma FilesAreValid()
    ensures ValidFile(F0) && ValidFile(F1) && ValidFile(O1) && ValidFile(O2)
  {
  }

  /** A flush into an empty level. */
  lemma FlushedInto(v: Version, level: nat, f: File, w: Version)
    requires level < NUM_LEVELS && v[level] == [] && w == v[level := [f]]
    requires forall l :: 0 <= l < NUM_LEVELS ==> |v[l]| <= 1
    ensures Flushed(v, level, f, w)
  {
    assert FilesOf([]) == {} && FilesOf([f]) == {f};
  }

  /** The first memtable goes to level 2: nothing overlaps it anywhere. */
  lemma FirstFlush(db: Db)
    requires db.version == Levels([], [], []) && db.imm == [A, B] && db.maxFileSize == 1
    ensures NextStep()(db, db.(imm := [], version := Levels([], [F0], [])))
  {
    var v, r := db.version, Range(Some(1.0), Some(3.0));
    FilesAreValid();
    OneFile(F0, r);
    assert Levels([], [F0], []) == v[2 := [F0]];
    FlushedInto(v, 2, F0, v[2 := [F0]]);
    assert !StopsAt(v, 0, 1.0, 3.0, 1) && !StopsAt(v, 1, 1.0, 3.0, 1);
    assert Flush(db, db.(imm := [], version := Levels([], [F0], [])), 2, F0);
  }

  /** The second one goes to level 1: the first table is in the way below. */
  lemma SecondFlush(db: Db)
    requires db.version == Levels([], [F0], []) && db.imm == [MARKER, OLD] && db.maxFileSize == 1
    ensures NextStep()(db, db.(imm := [], version := Levels([F1], [F0], [])))
  {
    var v, r := db.version, Range(Some(2.0), Some(2.0));
    FilesAreValid();
    OneFile(F0, r);
    assert Levels([F1], [F0], []) == v[1 := [F1]];
    FlushedInto(v, 1, F1, v[1 := [F1]]);
    assert Meets(F0, r) && F0 in v[2];
    assert !StopsAt(v, 0, 2.0, 2.0, 1) && StopsAt(v, 1, 2.0, 2.0, 1);
    assert Flush(db, db.(imm := [], version := Levels([F1], [F0], [])), 1, F1);
  }

  const BASE_PICK := Pick(1, [F1], [F0], [])

  /** Both files are picked: the one of level 1 overlaps the one of level 2. */
  lemma MergePick(v: Version)
    requires v == Levels([F1], [F0], [])
    ensures AutoPick(v, 1, 1, F1, BASE_PICK)
  {
    var r, all := UserRange(MARKER.key, OLD.key), UserRange(A.key, B.key);
    OneFile(F1, all);
    OneFile(F0, r);
    assert IsNextOf(v, 1, [F1], [F0]);
    assert F1 in [F1] + [F0] && F0 in [F1] + [F0];
    assert IsHull([F1] + [F0], A.key, B.key);
    assert IsOverlapping(v[1], 1, all, all, [F1]);
    assert IsExpansion(v, 1, [F1], [F0], [F1]);
    assert IsChoice(v, 1, 1, [F1], [F0], [F1], BASE_PICK);
    assert FilesMeeting(v[3], all) == [];
    assert IsSetup(v, 1, 1, [F1], BASE_PICK);
  }

  ghost function BaseMerge(): Merge {
    Merge(Levels([F1], [F0], []), 1, {F1}, {F0}, 2.0, 2.0, [A, MARKER, OLD, B], 3)
  }

  lemma BaseIsMerge()
    ensures IsMerge([A, MARKER, OLD, B], {F1} + {F0})
  {
    assert F1 in {F1} + {F0} && F0 in {F1} + {F0};
    assert A in F0.entries && B in F0.entries && MARKER in F1.entries && OLD in F1.entries;
  }

  lemma StartsMerge(db: Db)
    requires db.version == Levels([F1], [F0], []) && db.snapshots == [3] && db.merging == None && db.maxFileSize == 1
    ensures NextStep()(db, db.(merging := Some(BaseMerge())))
  {
    MergePick(db.version);
    BaseCarries(db);
    assert StartAutomatic(db, db.(merging := Some(BaseMerge())), BaseMerge());
  }

  lemma BaseCarries(db: Db)
    requires db.version == Levels([F1], [F0], []) && db.snapshots == [3]
    ensures Carries(db, BASE_PICK, BaseMerge())
  {
    OneFile(F1, UserRange(A.key, B.key));
    BaseIsMerge();
    assert FilesOf([F1]) == {F1} && FilesOf([F0]) == {F0};
  }

  /** With the snapshot held, both entries of the key stay; a full output may end between them. */
  lemma CutBetween()
    ensures Merged(BaseMerge(), [O1, O2], i => i + 3)
  {
    var input, base := [A, MARKER, OLD, B], BaseTest(BaseMerge().base, 1);
    assert Kept(input, 3, base, 1) == [A];
    assert Kept(input, 3, base, 2) == [A, MARKER];
    assert Kept(input, 3, base, 3) == [A, MARKER, OLD];
    assert Kept(input, 3, base, 4) == input;
    assert [O1, O2][..1] == [O1] && [O1][..0] == [];
    assert Flatten([O1]) == [A, MARKER];
    assert Flatten([O1, O2]) == input;
  }

  lemma InstallsMerge(db: Db)
    requires db.version == Levels([F1], [F0], []) && db.merging == Some(BaseMerge())
    ensures NextStep()(db, db.(version := Levels([], [O1, O2], []), merging := None))
  {
    CutBetween();
    var v, w := db.version, Levels([], [O1, O2], []);
    assert FilesOf([F1]) == {F1} && FilesOf([F0]) == {F0} && FilesOf([]) == {} && FilesOf([O1, O2]) == {O1, O2};
    assert Installed(v, 1, {F1}, {F0}, FilesOf([O1, O2]), w);
    assert Install(db, db.(version := w, merging := None), [O1, O2], i => i + 3);
  }

  /** The first of the two outputs is handed on alone. */
  lemma MovesFirst(db: Db)
    requires db.version == Levels([], [O1, O2], []) && db.merging == None && db.maxFileSize == 1
    ensures NextStep()(db, db.(version := Levels([], [O2], [O1])))
  {
    var v, w := db.version, Levels([], [O2], [O1]);
    MovePick(v);
    assert FilesOf([O1, O2]) == {O1, O2} && FilesOf([O2]) == {O2} && FilesOf([O1]) == {O1} && FilesOf([]) == {};
    assert Installed(v, 2, {O1}, {}, {O1}, w);
    assert Move(db, db.(version := w), 2, O1);
  }

  lemma MovePick(v: Version)
    requires v == Levels([], [O1, O2], [])
    ensures AutoPick(v, 1, 2, O1, Pick(2, [O1], [], [])) && IsTrivialMove(1, Pick(2, [O1], [], []))
  {
    OneFile(O1, UserRange(A.key, MARKER.key));
    assert IsNextOf(v, 2, [O1], []);
    assert [O1] + [] == [O1];
    assert IsSetup(v, 1, 2, [O1], Pick(2, [O1], [], []));
  }

  lemma MemoryStep(db: Db, next: Db)
    requires MemStep(db, next)
    ensures NextStep()(db, next)
  {
  }

  /** A table for two keys around the one in question; a value of it, a snapshot, its deletion. */
  ghost function Beginning(): seq<Db> {
    var e := Levels([], [], []);
    [Db([], [], e, {}, [], 0, None, 1),
     Db([A, B], [], e, {A, B}, [], 2, None, 1),
     Db([], [A, B], e, {A, B}, [], 2, None, 1),
     Db([], [], Levels([], [F0], []), {A, B}, [], 2, None, 1),
     Db([OLD], [], Levels([], [F0], []), {A, B} + {OLD}, [], 3, None, 1),
     Db([OLD], [], Levels([], [F0], []), {A, B} + {OLD}, [3], 3, None, 1),
     Db([MARKER, OLD], [], Levels([], [F0], []), {A, B} + {OLD} + {MARKER}, [3], 4, None, 1)]
  }

  /** The second table, the merge of both, the end of the snapshot, the move. */
  ghost function Ending(): seq<Db> {
    var all := {A, B} + {OLD} + {MARKER};
    [Db([MARKER, OLD], [], Levels([], [F0], []), all, [3], 4, None, 1),
     Db([], [MARKER, OLD], Levels([], [F0], []), all, [3], 4, None, 1),
     Db([], [], Levels([F1], [F0], []), all, [3], 4, None, 1),
     Db([], [], Levels([F1], [F0], []), all, [3], 4, Some(BaseMerge()), 1),
     Db([], [], Levels([], [O1, O2], []), all, [3], 4, None, 1),
     Db([], [], Levels([], [O1, O2], []), all, [], 4, None, 1),
     Db([], [], Levels([], [O2], [O1]), all, [], 4, None, 1)]
  }

  lemma FirstWrite(db: Db)
    requires db.mem == [] && db.written == {} && db.last == 0
    ensures NextStep()(db, db.(mem := [A, B], written := {A, B}, last := 2))
  {
    assert EntrySet([A, B]) == EntrySet([]) + {A, B} && {} + {A, B} == {A, B};
    assert Write(db, db.(mem := [A, B], written := {A, B}, last := 2), {A, B});
  }

  lemma SecondWrite(db: Db)
    requires db.mem == [] && db.last == 2
    ensures NextStep()(db, db.(mem := [OLD], written := db.written + {OLD}, last := 3))
  {
    assert EntrySet([OLD]) == EntrySet([]) + {OLD};
    assert Write(db, db.(mem := [OLD], written := db.written + {OLD}, last := 3), {OLD});
  }

  lemma ThirdWrite(db: Db)
    requires db.mem == [OLD] && db.last == 3
    ensures NextStep()(db, db.(mem := [MARKER, OLD], written := db.written + {MARKER}, last := 4))
  {
    assert EntrySet([MARKER, OLD]) == EntrySet([OLD]) + {MARKER};
    assert Write(db, db.(mem := [MARKER, OLD], written := db.written + {MARKER}, last := 4), {MARKER});
  }

  lemma BeginningIsRun()
    ensures IsRun(NextStep(), Beginning()) && Init(Beginning()[0])
  {
    var s := Beginning();
    assert Levels([], [], []) == seq(NUM_LEVELS, _ => []);
    FirstWrite(s[0]);
    assert SwitchMemTable(s[1], s[2]);
    MemoryStep(s[1], s[2]);
    FirstFlush(s[2]);
    SecondWrite(s[3]);
    assert TakeSnapshot(s[4], s[5]);
    MemoryStep(s[4], s[5]);
    ThirdWrite(s[5]);
  }

  lemma EndingIsRun()
    ensures IsRun(NextStep(), Ending())
  {
    var s := Ending();
    assert SwitchMemTable(s[0], s[1]);
    MemoryStep(s[0], s[1]);
    SecondFlush(s[1]);
    StartsMerge(s[2]);
    InstallsMerge(s[3]);
    Releases(s[4]);
    MovesFirst(s[5]);
  }

  lemma Releases(db: Db)
    requires db.snapshots == [3]
    ensures NextStep()(db, db.(snapshots := []))
  {
    assert [3][..0] + [3][1..] == [];
    assert ReleaseSnapshot(db, db.(snapshots := []), 0);
    MemoryStep(db, db.(snapshots := []));
  }

  ghost function SplitKeyRun(): seq<Db> {
    Beginning() + Ending()[1..]
  }

  /** A run in which a snapshot is held during a merge, every pick of it one that PickCompaction makes.
      At its end the newer of two files that share a user key has been moved below the older one, and a
      lookup, level by level, finds the value that was deleted. */
  lemma DeletedValueReturns()
    ensures Run(SplitKeyRun()) && |SplitKeyRun()| == 13
    ensures var db := SplitKeyRun()[12];
            && db.mem == db.imm == [] && db.snapshots == [] && WellFormed(db.version) && Level0Aged(db.version)
            && Visible(db.written, 2.0, db.last) == None && FoundByLevel(db.version, 2.0, db.last, 0) == Some("old")
            && !AgeOrdered(db.version)
  {
    BeginningIsRun();
    EndingIsRun();
    assert Beginning()[6] == Ending()[0];
    JoinRuns(NextStep(), Beginning(), Ending());
    assert SplitKeyRun()[12] == Ending()[6];
    OlderAbove(Levels([], [O2], [O1]));
    MarkerHides({A, B} + {OLD} + {MARKER});
    OldIsFound(Levels([], [O2], [O1]));
  }

  lemma MarkerHides(written: set<Entry>)
    requires written == {A, B} + {OLD} + {MARKER}
    ensures Visible(written, 2.0, 4) == None
  {
    VisibleIsNewest(written, 2.0, 4, MARKER);
  }

  lemma OlderAbove(v: Version)
    requires v == Levels([], [O2], [O1])
    ensures WellFormed(v) && Level0Aged(v) && !AgeOrdered(v)
  {
    FilesAreValid();
    assert FilesOf([O1]) == {O1} && FilesOf([O2]) == {O2} && FilesOf([]) == {};
    assert OLD in O2.entries && MARKER in O1.entries && !NewerThan(O2, O1);
    assert O2 in v[2] && O1 in v[3];
  }

  lemma OldIsFound(v: Version)
    requires v == Levels([], [O2], [O1])
    ensures FoundByLevel(v, 2.0, 4, 0) == Some("old")
  {
    assert LevelEntries(v, 0) == {} && LevelEntries(v, 1) == {};
    assert LevelEntries(v, 2) == {OLD, B} by {
      assert OLD in O2.entries && B in O2.entries;
    }
    VisibleIsNewest({OLD, B}, 2.0, 4, OLD);
    assert FoundByLevel(v, 2.0, 4, 2) == Some("old");
    assert FoundByLevel(v, 2.0, 4, 1) == FoundByLevel(v, 2.0, 4, 2);
  }

  const X := File(7, 1, MARKER.key, MARKER.key, [MARKER])
  const Y := File(8, 1, OLD.key, OLD.key, [OLD])
  /** Too large for the expansion of the inputs. */
  const N := File(9, 25, A.key, B.key, [A, B])

  lemma SplitIsOrdered(v: Version)
    requires v == Levels([X, Y], [N], [])
    ensures WellFormed(v) && AgeOrdered(v) && DistinctSequences(AllEntries(v)) && !CleanLevels(v)
  {
    assert FilesOf([X, Y]) == {X, Y} && FilesOf([N]) == {N} && FilesOf([]) == {};
    assert X in FilesOf(v[1]) && Y in FilesOf(v[1]);
    forall e | e in AllEntries(v) ensures e in {A, B, MARKER, OLD} {
      var l, f :| 0 <= l < NUM_LEVELS && f in v[l] && e in f.entries;
      assert f in {X, Y, N};
    }
  }

  lemma BothMeet(r: Range)
    requires r == UserRange(A.key, B.key)
    ensures FilesMeeting([X, Y], r) == [X, Y] && TotalFileSize([X, Y]) == 2
  {
    OneFile(X, r);
    assert [X, Y][..1] == [X];
  }

  lemma SplitPick(v: Version)
    requires v == Levels([X, Y], [N], [])
    ensures AutoPick(v, 1, 1, X, Pick(1, [X], [N], []))
  {
    SplitChoice(v);
    SplitSetup(v);
  }

  lemma SplitSetup(v: Version)
    requires v == Levels([X, Y], [N], []) && IsNextOf(v, 1, [X], [N]) && IsExpansion(v, 1, [X], [N], [X, Y])
    requires IsChoice(v, 1, 1, [X], [N], [X, Y], Pick(1, [X], [N], []))
    requires IsHull([X] + [N], A.key, B.key)
    ensures IsSetup(v, 1, 1, [X], Pick(1, [X], [N], []))
  {
    assert FilesMeeting(v[3], UserRange(A.key, B.key)) == [];
  }

  lemma HullOfBoth()
    ensures IsHull([X] + [N], A.key, B.key)
  {
    assert X in [X] + [N] && N in [X] + [N];
  }

  lemma SplitChoice(v: Version)
    requires v == Levels([X, Y], [N], [])
    ensures IsNextOf(v, 1, [X], [N]) && IsExpansion(v, 1, [X], [N], [X, Y])
    ensures IsChoice(v, 1, 1, [X], [N], [X, Y], Pick(1, [X], [N], []))
    ensures IsHull([X] + [N], A.key, B.key)
  {
    var r, all := UserRange(MARKER.key, MARKER.key), UserRange(A.key, B.key);
    OneFile(X, all);
    OneFile(N, r);
    BothMeet(all);
    assert IsNextOf(v, 1, [X], [N]);
    HullOfBoth();
    assert IsOverlapping(v[1], 1, all, all, [X, Y]);
    assert IsExpansion(v, 1, [X], [N], [X, Y]);
  }

  /** An automatic pick whose merge drops a marker and brings a value back: the next level's file makes
      it more than a move, and is too large for the rest of the key to be picked as well. */
  lemma DroppedMarkerBringsBack(v: Version, outputs: seq<File>, numbers: nat -> nat, w: Version)
    requires v == Levels([X, Y], [N], [])
    requires IsCut(outputs, Kept([A, MARKER, B], 4, BaseTest(v, 1), 3), numbers)
      && Installed(v, 1, {X}, {N}, FilesOf(outputs), w)
    ensures WellFormed(v) && AgeOrdered(v) && AutoPick(v, 1, 1, X, Pick(1, [X], [N], []))
    ensures MarkerBringsBack(v, 1, {X}, {N}, [A, MARKER, B], 4, 1, OLD)
    ensures !SameAnswers(AllEntries(w), AllEntries(v), 4)
  {
    SplitIsOrdered(v);
    SplitPick(v);
    SplitInputs(v);
    BringsOldBack(v);
    CompactionKeepsMeaning(v, 1, {X}, {N}, 2.0, 2.0, [A, MARKER, B], 4, outputs, numbers, w);
  }

  lemma SplitInputs(v: Version)
    requires v == Levels([X, Y], [N], [])
    ensures IsMerge([A, MARKER, B], {X} + {N}) && InputsIn(v, 1, {X}, {N}, 2.0, 2.0)
  {
    assert X in {X} + {N} && N in {X} + {N};
    assert A in N.entries && B in N.entries && MARKER in X.entries;
    assert FilesOf([X, Y]) == {X, Y} && FilesOf([N]) == {N};
  }

  lemma BringsOldBack(v: Version)
    requires v == Levels([X, Y], [N], [])
    ensures MarkerBringsBack(v, 1, {X}, {N}, [A, MARKER, B], 4, 1, OLD)
  {
    var rest := Untouched(v, 1, {X}, {N});
    assert Y in v[1] && X in {X} && OLD in Y.entries && MARKER in X.entries;
    assert HasOlder(v, 1, {X}, OLD, MARKER);
    forall e | e in rest ensures e == OLD {
      var l, f :| 0 <= l < NUM_LEVELS && f in v[l] && !(l == 1 && f in {X}) && !(l == 2 && f in {N}) && e in f.entries;
      assert f == Y;
    }
    assert OLD in rest && MARKER in EntrySet([A, MARKER, B]);
    assert IsNewest(rest + EntrySet([A, MARKER, B]), 2.0, 4, MARKER) && IsNewest(rest, 2.0, 4, OLD);
  }
}
