/** VersionSet::LogAndApply, WriteSnapshot and Recover. */
module Manifest {
  import opened DbFormat
  import opened Coding
  import opened VersionEdits
  import opened Builder
  import opened EditBatches

  /** The edits the records decode to, each into a fresh edit. */
  function DecodeAll(records: seq<Bytes>): Option<seq<VersionEdit>> {
    if records == [] then Some([])
    else
      var n := |records| - 1;
      match DecodeAll(records[..n])
      case None => None
      case Some(edits) =>
        match DecodeRest(records[n], EMPTY_EDIT)
        case Corruption(_) => None
        case Ok(e) => Some(edits + [e])
  }

  /** The last value the edits set, if any. */
  function LastSet(edits: seq<VersionEdit>, get: VersionEdit -> Option<nat>): Option<nat> {
    if edits == [] then None
    else
      var n := |edits| - 1;
      if get(edits[n]).Some? then get(edits[n]) else LastSet(edits[..n], get)
  }

  /** The compaction pointer that the edits leave for the level. */
  function PointerAfter(edits: seq<VersionEdit>, level: nat): Bytes {
    if edits == [] then []
    else
      var n := |edits| - 1;
      LastPointer(PointerAfter(edits[..n], level), edits[n].compactPointers, level)
  }

  function LogNumberOf(e: VersionEdit): Option<nat> { e.logNumber }
  function PrevLogNumberOf(e: VersionEdit): Option<nat> { e.prevLogNumber }
  function NextFileOf(e: VersionEdit): Option<nat> { e.nextFileNumber }
  function LastSequenceOf(e: VersionEdit): Option<nat> { e.lastSequence }

  predicate ComparatorMatches(e: VersionEdit, name: Bytes) {
    e.comparator.Some? ==> e.comparator.value == name
  }

  /** Each level is the listing of what the edits add up to from nothing. */
  ghost predicate AddUpTo(edits: seq<VersionEdit>, levels: Levels) {
    forall l :: 0 <= l < NUM_LEVELS ==> IsListing(levels[l], Built([], ApplyEdits(edits, l)))
  }

  ghost predicate PointTo(edits: seq<VersionEdit>, pointers: Pointers) {
    forall l :: 0 <= l < NUM_LEVELS ==> pointers[l] == PointerAfter(edits, l)
  }

  datatype Recovered = Recovered(levels: Levels, compactPointer: Pointers, logNumber: nat, prevLogNumber: nat,
                                 nextFile: nat, lastSequence: nat)

  /** Whether recovery accepts the edits of a manifest. */
  ghost predicate Acceptable(edits: seq<VersionEdit>, name: Bytes) {
    && (forall e :: e in edits ==> ComparatorMatches(e, name))
    && LastSet(edits, NextFileOf).Some? && LastSet(edits, LogNumberOf).Some? && LastSet(edits, LastSequenceOf).Some?
  }

  function OrElse(a: Option<nat>, b: Option<nat>): Option<nat> {
    if a.Some? then a else b
  }

  /** VersionSet::Recover, reading the records of the current manifest. */
  method Recover(records: seq<Bytes>, name: Bytes) returns (r: Status<Recovered>)
    ensures r.Ok? <==> DecodeAll(records).Some? && Acceptable(DecodeAll(records).value, name)
    ensures r.Ok? ==>
      var edits := DecodeAll(records).value;
      && AddUpTo(edits, r.value.levels) && PointTo(edits, r.value.compactPointer)
      && LastSet(edits, NextFileOf) == Some(r.value.nextFile) && LastSet(edits, LogNumberOf) == Some(r.value.logNumber)
      && LastSet(edits, LastSequenceOf) == Some(r.value.lastSequence)
      && OrElse(LastSet(edits, PrevLogNumberOf), Some(0)) == Some(r.value.prevLogNumber)
  {
    var builder := new Builder(seq(NUM_LEVELS, _ => []), seq(NUM_LEVELS, _ => []));
    var logNumber, prevLogNumber, nextFile, lastSequence := None, None, None, None;
    ghost var edits := [];
    for i := 0 to |records|
      invariant builder.Valid() && fresh(builder) && builder.base == seq(NUM_LEVELS, _ => [])
      invariant DecodeAll(records[..i]) == Some(edits)
      invariant forall e :: e in edits ==> ComparatorMatches(e, name)
      invariant forall l :: 0 <= l < NUM_LEVELS ==> builder.levels[l] == ApplyEdits(edits, l)
      invariant PointTo(edits, builder.compactPointer)
      invariant logNumber == LastSet(edits, LogNumberOf) && prevLogNumber == LastSet(edits, PrevLogNumberOf)
      invariant nextFile == LastSet(edits, NextFileOf) && lastSequence == LastSet(edits, LastSequenceOf)
    {
      assert records[..i + 1][..i] == records[..i];
      var decoded := DecodeFrom(EMPTY_EDIT, records[i]);
      if decoded.Corruption? || !ComparatorMatches(decoded.value, name) {
        Rejected(records, i, name);
        return Corruption(if decoded.Corruption? then decoded.msg else "comparator");
      }
      var e := decoded.value;
      builder.Apply(e);
      ghost var longer := edits + [e];
      assert longer[..|edits|] == edits;
      edits := longer;
      logNumber := OrElse(e.logNumber, logNumber);
      prevLogNumber := OrElse(e.prevLogNumber, prevLogNumber);
      nextFile := OrElse(e.nextFileNumber, nextFile);
      lastSequence := OrElse(e.lastSequence, lastSequence);
    }
    assert records[..|records|] == records;
    if nextFile.None? {
      return Corruption("no meta-nextfile entry in descriptor");
    } else if logNumber.None? {
      return Corruption("no meta-lognumber entry in descriptor");
    } else if lastSequence.None? {
      return Corruption("no last-sequence-number entry in descriptor");
    }
    var levels := builder.SaveTo();
    r := Ok(Recovered(levels, builder.compactPointer, logNumber.value, if prevLogNumber.Some?
                      then prevLogNumber.value else 0,
                      nextFile.value, lastSequence.value));
  }

  /** A bad record spoils the whole manifest. */
  lemma {:induction false} Rejected(records: seq<Bytes>, i: nat, name: Bytes)
    requires i < |records|
    requires DecodeRest(records[i], EMPTY_EDIT).Ok? ==>
      !ComparatorMatches(DecodeRest(records[i], EMPTY_EDIT).value, name)
    ensures DecodeAll(records).Some? ==> exists e :: e in DecodeAll(records).value && !ComparatorMatches(e, name)
    decreases |records|
  {
    var n := |records| - 1;
    if i < n {
      Rejected(records[..n], i, name);
    }
    if DecodeAll(records).Some? && DecodeRest(records[n], EMPTY_EDIT).Ok? {
      var e := DecodeRest(records[n], EMPTY_EDIT).value;
      assert e in DecodeAll(records).value;
    }
  }

  function LevelFiles(levels: Levels, level: nat): seq<(nat, FileMeta)>
    requires level <= NUM_LEVELS
  {
    if level == 0 then [] else LevelFiles(levels, level - 1) + Tagged(levels[level - 1], level - 1)
  }

  function Tagged(files: seq<FileMeta>, level: nat): seq<(nat, FileMeta)> {
    if files == [] then [] else Tagged(files[..|files| - 1], level) + [(level, files[|files| - 1])]
  }

  ghost predicate DistinctNumbers(files: set<FileMeta>) {
    forall f, g :: f in files && g in files && f.number == g.number ==> f == g
  }

  lemma {:induction false} TaggedShape(files: seq<FileMeta>, level: nat)
    ensures |Tagged(files, level)| == |files|
    ensures forall i :: 0 <= i < |files| ==> Tagged(files, level)[i] == (level, files[i])
  {
    if files != [] {
      TaggedShape(files[..|files| - 1], level);
    }
  }

  /** The snapshot lists every file of every level once. */
  lemma {:induction false} SnapshotFiles(levels: Levels, k: nat, l: nat)
    requires k <= NUM_LEVELS && l < NUM_LEVELS
    requires SortedFiles(levels[l]) && DistinctNumbers(FileSet(levels[l]))
    ensures forall f :: f in LevelFiles(levels, k) ==> f.0 < k && f.1 in levels[f.0]
    ensures FreshAdditions({}, LevelFiles(levels, k), l)
    ensures AdditionsOf(LevelFiles(levels, k), l) == if l < k then FileSet(levels[l]) else {}
  {
    if k > 0 {
      SnapshotFiles(levels, k - 1, l);
      TaggedShape(levels[k - 1], k - 1);
      var front, back := LevelFiles(levels, k - 1), Tagged(levels[k - 1], k - 1);
      if l == k - 1 {
        NumbersDiffer(levels[l]);
        OneMoreLevel(front, back, levels[l], l);
      } else {
        OtherLevel(front, back, k - 1, l);
      }
    }
  }

  /** The files of the level come after those of others. */
  lemma OneMoreLevel(front: seq<(nat, FileMeta)>, back: seq<(nat, FileMeta)>, files: seq<FileMeta>, l: nat)
    requires (forall f :: f in front ==> f.0 != l) && |back| == |files|
    requires forall i :: 0 <= i < |files| ==> back[i] == (l, files[i])
    requires forall i, j :: 0 <= i < j < |files| ==> files[i].number != files[j].number
    ensures FreshAdditions({}, front + back, l) && AdditionsOf(front + back, l) == FileSet(files)
  {
    forall f | f in FileSet(files) ensures f in AdditionsOf(front + back, l) {
      var i :| 0 <= i < |files| && files[i] == f;
      assert back[i] in front + back;
    }
  }

  lemma OtherLevel(front: seq<(nat, FileMeta)>, back: seq<(nat, FileMeta)>, k: nat, l: nat)
    requires FreshAdditions({}, front, l) && k != l && forall f :: f in back ==> f.0 == k
    ensures FreshAdditions({}, front + back, l) && AdditionsOf(front + back, l) == AdditionsOf(front, l)
  {
  }

  lemma NumbersDiffer(files: seq<FileMeta>)
    requires SortedFiles(files) && DistinctNumbers(FileSet(files))
    ensures forall i, j :: 0 <= i < j < |files| ==> files[i].number != files[j].number
  {
    forall i, j | 0 <= i < j < |files| ensures files[i].number != files[j].number {
      assert files[i] in FileSet(files) && files[j] in FileSet(files);
      assert FileBefore(files[i], files[j]);
    }
  }

  /** The pointers of the first levels that have one. */
  function PointerList(pointers: Pointers, k: nat): seq<(nat, Bytes)>
    requires k <= NUM_LEVELS
  {
    if k == 0 then []
    else PointerList(pointers, k - 1) + if pointers[k - 1] == [] then [] else [(k - 1, pointers[k - 1])]
  }

  lemma {:induction false} ListedPointer(pointers: Pointers, k: nat, l: nat)
    requires k <= NUM_LEVELS && l < NUM_LEVELS
    ensures LastPointer([], PointerList(pointers, k), l) == if l < k then pointers[l] else []
  {
    if k > 0 {
      ListedPointer(pointers, k - 1, l);
      var front := PointerList(pointers, k - 1);
      if pointers[k - 1] == [] {
        assert front + [] == front;
      } else {
        assert (front + [(k - 1, pointers[k - 1])])[..|front|] == front;
      }
    }
  }

  lemma {:induction false} ListedFrom(pointers: Pointers, k: nat)
    requires k <= NUM_LEVELS
    ensures forall p :: p in PointerList(pointers, k) ==> p.0 < k && p.1 == pointers[p.0]
  {
    if k > 0 {
      ListedFrom(pointers, k - 1);
    }
  }

  /** An edit that names the level settles its pointer; another one leaves it alone. */
  lemma {:induction false} PointerSettled(p: Bytes, q: Bytes, pointers: seq<(nat, Bytes)>, l: nat)
    ensures if exists x :: x in pointers && x.0 == l then LastPointer(p, pointers, l) == LastPointer(q, pointers, l)
            else LastPointer(p, pointers, l) == p
    ensures LastPointer(p, pointers, l) == p || (l, LastPointer(p, pointers, l)) in pointers
    decreases pointers
  {
    if pointers != [] {
      var n := |pointers| - 1;
      PointerSettled(p, q, pointers[..n], l);
      assert pointers == pointers[..n] + [pointers[n]];
    }
  }

  function SnapshotEdit(levels: Levels, pointers: Pointers, name: Bytes): VersionEdit {
    EMPTY_EDIT.(comparator := Some(name), compactPointers := PointerList(pointers, NUM_LEVELS), newFiles :=
                LevelFiles(levels, NUM_LEVELS))
  }

  lemma SnapshotPoint(levels: Levels, pointers: Pointers, name: Bytes, l: nat)
    requires l < NUM_LEVELS
    ensures PointerAfter([SnapshotEdit(levels, pointers, name)], l) == pointers[l]
  {
    var snapshot := SnapshotEdit(levels, pointers, name);
    ListedPointer(pointers, NUM_LEVELS, l);
    assert [snapshot][..0] == [];
  }

  /** The snapshot record alone adds up to the version, and to the pointers, that it was taken of. */
  lemma SnapshotAddsUp(levels: Levels, pointers: Pointers, name: Bytes, l: nat)
    requires l < NUM_LEVELS && SortedFiles(levels[l]) && DistinctNumbers(FileSet(levels[l]))
    ensures FreshEdits([], [SnapshotEdit(levels, pointers, name)], l)
    ensures IsListing(levels[l], Built([], ApplyEdits([SnapshotEdit(levels, pointers, name)], l)))
    ensures AddedBy([SnapshotEdit(levels, pointers, name)], l) == FileSet(levels[l])
    ensures PointerAfter([SnapshotEdit(levels, pointers, name)], l) == pointers[l]
  {
    var snapshot := SnapshotEdit(levels, pointers, name);
    SnapshotPoint(levels, pointers, name, l);
    SnapshotFiles(levels, NUM_LEVELS, l);
    assert [snapshot][..0] == [];
    assert FileSet([]) + AddedBy([], l) == {} && Numbers({}) == {};
    AddFilesEffect(LevelState({}, []), snapshot.newFiles, l);
    assert ApplyEdits([snapshot], l) == ApplyEdit(LevelState({}, []), snapshot, l);
    assert {} + Deletions(snapshot, l) == {};
    AddedBySplit([snapshot], l);
  }

  /** The manifest so far adds up to the current version, no number having been added twice. */
  ghost predicate Tracks(history: seq<VersionEdit>, current: Levels, name: Bytes) {
    && AddUpTo(history, current)
    && (forall l :: 0 <= l < NUM_LEVELS ==> FreshEdits([], history, l))
    && forall e :: e in history ==> ComparatorMatches(e, name)
  }

  ghost predicate IsNext(current: Levels, e: VersionEdit, next: Levels) {
    forall l :: 0 <= l < NUM_LEVELS ==> IsListing(next[l], Built(current[l], ApplyEdit(LevelState({}, []), e, l)))
  }

  /** One more record keeps the manifest in step with the version it produces. */
  lemma TracksNext(history: seq<VersionEdit>, current: Levels, e: VersionEdit, name: Bytes, l: nat)
    requires Tracks(history, current, name) && l < NUM_LEVELS
    requires FreshAdditions(Numbers(FileSet(current[l]) + AddedBy(history, l)), e.newFiles, l)
    ensures FreshEdits([], history + [e], l)
    ensures Built([], ApplyEdits(history + [e], l)) == Built(current[l], ApplyEdit(LevelState({}, []), e, l))
    ensures NoNumberTwice(current[l], ApplyEdit(LevelState({}, []), e, l).added)
  {
    FreshHistory(history, current[l], e, l);
    assert (history + [e])[..|history|] == history;
    OneMoreEdit([], history + [e], current[l], l);
  }

  lemma FreshHistory(history: seq<VersionEdit>, current: seq<FileMeta>, e: VersionEdit, l: nat)
    requires FreshEdits([], history, l)
    requires FreshAdditions(Numbers(FileSet(current) + AddedBy(history, l)), e.newFiles, l)
    ensures FreshEdits([], history + [e], l)
  {
    var edits := history + [e];
    assert edits[..|history|] == history;
    assert Numbers(FileSet([]) + AddedBy(history, l)) <= Numbers(FileSet(current) + AddedBy(history, l));
    forall i | 0 <= i < |history|
      ensures FreshAdditions(Numbers(FileSet([]) + AddedBy(edits[..i], l)), edits[i].newFiles, l)
    {
      assert edits[..i] == history[..i] && edits[i] == history[i];
    }
  }

  /** What one more record adds to what the manifest decodes to. */
  lemma RecordAppended(descriptor: seq<Bytes>, history: seq<VersionEdit>, e: VersionEdit)
    requires DecodeAll(descriptor) == Some(history) && InRange(e)
    ensures DecodeAll(descriptor + [Encode(e)]) == Some(history + [e])
  {
    EditRoundTrip(e, EMPTY_EDIT);
    assert (descriptor + [Encode(e)])[..|descriptor|] == descriptor;
  }

  /** The next version's files are in range and keep their numbers apart. */
  lemma NextFiles(current: seq<FileMeta>, e: VersionEdit, l: nat)
    requires l < NUM_LEVELS && SortedFiles(current) && DistinctNumbers(FileSet(current))
    requires FreshAdditions(Numbers(FileSet(current)), e.newFiles, l)
    ensures var next := Built(current, ApplyEdit(LevelState({}, []), e, l));
      DistinctNumbers(next) && next <= FileSet(current) + AdditionsOf(e.newFiles, l)
  {
    AddFilesEffect(LevelState({} + Deletions(e, l), []), e.newFiles, l);
    forall f, g | f in FileSet(current) && g in AdditionsOf(e.newFiles, l) ensures f.number != g.number {
      assert f.number in Numbers(FileSet(current));
    }
    forall f, g | f in AdditionsOf(e.newFiles, l) && g in AdditionsOf(e.newFiles, l) && f.number == g.number
      ensures f == g {
      var i :| 0 <= i < |e.newFiles| && e.newFiles[i] == (l, f);
      var j :| 0 <= j < |e.newFiles| && e.newFiles[j] == (l, g);
    }
  }

  lemma {:induction false} FilesAreFields(files: seq<(nat, FileMeta)>)
    ensures forall f :: f in files ==> NewFile(f.0, f.1) in FileFields(files)
    ensures forall g :: g in FileFields(files) ==> g.NewFile? && (g.level, g.file) in files
  {
    if files != [] {
      FilesAreFields(files[1..]);
      assert files == [files[0]] + files[1..];
    }
  }

  lemma {:induction false} PointersAreFields(pointers: seq<(nat, Bytes)>)
    ensures forall p :: p in pointers ==> CompactPointer(p.0, p.1) in PointerFields(pointers)
    ensures forall g :: g in PointerFields(pointers) ==> g.CompactPointer? && (g.level, g.key) in pointers
  {
    if pointers != [] {
      PointersAreFields(pointers[1..]);
      assert pointers == [pointers[0]] + pointers[1..];
    }
  }

  lemma PointersInRange(pointers: Pointers)
    requires forall l :: 0 <= l < NUM_LEVELS ==> |pointers[l]| < UINT32_LIMIT
    ensures forall f :: f in PointerFields(PointerList(pointers, NUM_LEVELS)) ==> InRangeField(f)
  {
    ListedFrom(pointers, NUM_LEVELS);
    PointersAreFields(PointerList(pointers, NUM_LEVELS));
  }

  lemma SnapshotFields(levels: Levels, pointers: Pointers, name: Bytes)
    ensures var e := SnapshotEdit(levels, pointers, name);
      forall f :: f in Fields(e) ==> f == Comparator(name) || f in PointerFields(e.compactPointers)
                                     || f in FileFields(e.newFiles)
  {
    var e := SnapshotEdit(levels, pointers, name);
    assert ScalarFields(e) == [Comparator(name)] && DeletionFields(e.deletedFiles) == [];
  }

  lemma SnapshotInRange(levels: Levels, pointers: Pointers, name: Bytes)
    requires |name| < UINT32_LIMIT && forall l :: 0 <= l < NUM_LEVELS ==> |pointers[l]| < UINT32_LIMIT
    requires forall l :: 0 <= l < NUM_LEVELS ==> SortedFiles(levels[l]) && DistinctNumbers(FileSet(levels[l]))
    requires forall l, f :: 0 <= l < NUM_LEVELS && f in levels[l] ==> InRangeField(NewFile(l, f))
    ensures InRange(SnapshotEdit(levels, pointers, name))
  {
    var e := SnapshotEdit(levels, pointers, name);
    SnapshotFiles(levels, NUM_LEVELS, 0);
    SnapshotFields(levels, pointers, name);
    FilesAreFields(e.newFiles);
    PointersInRange(pointers);
  }

  /** Every level is sorted, with one file per number, all of them within the encoding's range. */
  ghost predicate GoodFiles(levels: Levels) {
    && (forall l :: 0 <= l < NUM_LEVELS ==> SortedFiles(levels[l]) && DistinctNumbers(FileSet(levels[l])))
    && (forall l, f :: 0 <= l < NUM_LEVELS && f in levels[l] ==> InRangeField(NewFile(l, f)))
  }

  ghost predicate GoodPointers(pointers: Pointers) {
    forall l :: 0 <= l < NUM_LEVELS ==> |pointers[l]| < UINT32_LIMIT
  }

  /** The manifest has the pointers of memory, but for those that were never logged. */
  ghost predicate PointersLogged(history: seq<VersionEdit>, pointers: Pointers, unlogged: set<nat>) {
    forall l :: 0 <= l < NUM_LEVELS && l !in unlogged ==> PointerAfter(history, l) == pointers[l]
  }

  ghost predicate PointersMove(before: Pointers, e: VersionEdit, after: Pointers) {
    forall l :: 0 <= l < NUM_LEVELS ==> after[l] == LastPointer(before[l], e.compactPointers, l)
  }

  /** The levels whose pointer the edit sets. */
  ghost function Named(e: VersionEdit): set<nat> {
    set p | p in e.compactPointers :: p.0
  }

  lemma MovedPointers(before: Pointers, e: VersionEdit, after: Pointers, history: seq<VersionEdit>, unlogged: set<nat>)
    requires PointersMove(before, e, after) && PointersLogged(history, before, unlogged)
    ensures PointersLogged(history + [e], after, unlogged - Named(e))
  {
    assert (history + [e])[..|history|] == history;
    forall l | 0 <= l < NUM_LEVELS && l !in unlogged - Named(e) ensures PointerAfter(history + [e], l) == after[l] {
      PointerSettled(PointerAfter(history, l), before[l], e.compactPointers, l);
    }
  }

  lemma SnapshotPoints(levels: Levels, pointers: Pointers, name: Bytes)
    ensures PointersLogged([SnapshotEdit(levels, pointers, name)], pointers, {})
  {
    forall l | 0 <= l < NUM_LEVELS ensures PointerAfter([SnapshotEdit(levels, pointers, name)], l) == pointers[l] {
      SnapshotPoint(levels, pointers, name, l);
    }
  }

  /** A pointer that has been moved already is not moved by moving it again. */
  lemma MovedTwice(before: Pointers, e: VersionEdit, after: Pointers)
    requires PointersMove(before, e, after)
    ensures PointersMove(after, e, after)
  {
    forall l | 0 <= l < NUM_LEVELS ensures after[l] == LastPointer(after[l], e.compactPointers, l) {
      PointerSettled(before[l], after[l], e.compactPointers, l);
      PointerSettled(after[l], before[l], e.compactPointers, l);
    }
  }

  /** A new manifest begins with the pointers as the edit leaves them. */
  lemma PointersOfNew(levels: Levels, before: Pointers, e: VersionEdit, after: Pointers, name: Bytes)
    requires PointersMove(before, e, after)
    ensures PointersLogged([SnapshotEdit(levels, after, name)] + [e], after, {} - Named(e))
  {
    SnapshotPoints(levels, after, name);
    MovedTwice(before, e, after);
    MovedPointers(after, e, after, [SnapshotEdit(levels, after, name)], {});
  }

  lemma KeptPointers(isNew: bool, levels: Levels, before: Pointers, e: VersionEdit, after: Pointers, name: Bytes,
                     history: seq<VersionEdit>, unlogged: set<nat>)
    requires PointersMove(before, e, after) && (!isNew ==> PointersLogged(history, before, unlogged))
    ensures PointersLogged((if isNew then [SnapshotEdit(levels, after, name)] else history) + [e], after,
                           (if isNew then {} else unlogged) - Named(e))
  {
    if isNew {
      PointersOfNew(levels, before, e, after, name);
    } else {
      MovedPointers(before, e, after, history, unlogged);
    }
  }

  lemma MovedInRange(before: Pointers, e: VersionEdit, after: Pointers)
    requires PointersMove(before, e, after) && GoodPointers(before) && InRange(e)
    ensures GoodPointers(after)
  {
    PointersAreFields(e.compactPointers);
    forall l | 0 <= l < NUM_LEVELS ensures |after[l]| < UINT32_LIMIT {
      PointerSettled(before[l], before[l], e.compactPointers, l);
      assert after[l] != before[l] ==> CompactPointer(l, after[l]) in Fields(e);
    }
  }

  class VersionSet {
    const comparatorName: Bytes
    var current: Levels
    var logNumber: nat
    var prevLogNumber: nat
    var nextFileNumber: nat
    var lastSequence: nat
    var compactPointer: Pointers
    var descriptor: seq<Bytes>  // the records of the manifest; empty while it is still to be created
    ghost var history: seq<VersionEdit>
    ghost var unlogged: set<nat>  // the levels whose pointer has been set in memory only

    ghost predicate Valid()
      reads this
    {
      Consistent() && (descriptor != [] ==> PointersLogged(history, compactPointer, unlogged))
    }

    /** What holds also while an edit is being logged that has moved the pointers already. */
    ghost predicate Consistent()
      reads this
    {
      && |comparatorName| < UINT32_LIMIT
      && GoodFiles(current) && GoodPointers(compactPointer)
      && DecodeAll(descriptor) == Some(history)
      && (descriptor != [] ==>
        && Tracks(history, current, comparatorName) && Acceptable(history, comparatorName)
        && LastSet(history, LogNumberOf) == Some(logNumber) && LastSet(history, PrevLogNumberOf) == Some(prevLogNumber))
    }

    /** SetupOtherInputs: the pointer moves at once, and its edit may never be logged. */
    method SetCompactPointer(level: nat, key: Bytes)
      requires Valid() && level < NUM_LEVELS && |key| < UINT32_LIMIT
      modifies this`compactPointer, this`unlogged
      ensures Valid() && compactPointer == old(compactPointer)[level := key] && unlogged == old(unlogged) + {level}
    {
      compactPointer := compactPointer[level := key];
      unlogged := unlogged + {level};
    }

    /** The edit as LogAndApply writes it: missing log numbers filled in, counters brought up to date. */
    function Filled(e: VersionEdit): VersionEdit
      reads this
    {
      e.(logNumber := if e.logNumber.Some? then e.logNumber else Some(logNumber),
         prevLogNumber := if e.prevLogNumber.Some? then e.prevLogNumber else Some(prevLogNumber),
         nextFileNumber := Some(nextFileNumber), lastSequence := Some(lastSequence))
    }

    /** New files bear numbers that the level never saw. */
    ghost predicate FreshFor(e: VersionEdit)
      reads this
    {
      forall l :: 0 <= l < NUM_LEVELS ==>
        FreshAdditions(Numbers(FileSet(current[l]) + AddedBy(history, l)), e.newFiles, l)
    }

    /** WriteSnapshot: the first record of a new manifest. */
    method WriteSnapshot()
      requires Consistent() && descriptor == []
      modifies this`descriptor, this`history
      ensures descriptor == [Encode(SnapshotEdit(current, compactPointer, comparatorName))]
        && DecodeAll(descriptor) == Some(history)
      ensures history == [SnapshotEdit(current, compactPointer, comparatorName)]
        && Tracks(history, current, comparatorName)
      ensures forall l :: 0 <= l < NUM_LEVELS ==> AddedBy(history, l) == FileSet(current[l])
      ensures PointTo(history, compactPointer)
    {
      var snapshot := SnapshotEdit(current, compactPointer, comparatorName);
      SnapshotInRange(current, compactPointer, comparatorName);
      RecordAppended([], [], snapshot);
      forall l | 0 <= l < NUM_LEVELS
        ensures FreshEdits([], [snapshot], l) && IsListing(current[l], Built([], ApplyEdits([snapshot], l)))
        ensures AddedBy([snapshot], l) == FileSet(current[l]) && PointerAfter([snapshot], l) == compactPointer[l]
      {
        SnapshotAddsUp(current, compactPointer, comparatorName, l);
      }
      var record := EncodeTo(snapshot);
      descriptor := [] + [record];
      history := [] + [snapshot];
    }

    /** A new manifest begins with the snapshot; an existing one is simply continued. */
    method StartManifest(e: VersionEdit, ghost v: Levels)
      requires Consistent() && FreshFor(e)
      modifies this`descriptor, this`history
      ensures descriptor == if old(descriptor) == []
        then [Encode(SnapshotEdit(current, compactPointer, comparatorName))] else old(descriptor)
      ensures DecodeAll(descriptor) == Some(history) && Tracks(history, current, comparatorName) && FreshFor(e)
      ensures history == if old(descriptor) == []
        then [SnapshotEdit(current, compactPointer, comparatorName)] else old(history)
    {
      if descriptor == [] {
        assert history == [];
        WriteSnapshot();
        forall l | 0 <= l < NUM_LEVELS
          ensures FileSet(current[l]) + AddedBy(history, l) == FileSet(current[l]) + AddedBy([], l)
        {
          assert AddedBy([], l) == {};
        }
      }
    }

    /** LogAndApply: builds the next version, appends the filled-in edit to the manifest, which
        starts with a snapshot of the current version if it is new, and installs the result. */
    method LogAndApply(edit: VersionEdit)
      requires Valid() && LevelsExist(edit) && InRange(Filled(edit)) && ComparatorMatches(edit, comparatorName)
      requires edit.logNumber.Some? ==> logNumber <= edit.logNumber.value < nextFileNumber
      requires FreshFor(edit)
      modifies this
      ensures Valid() && nextFileNumber == old(nextFileNumber) && lastSequence == old(lastSequence)
      ensures IsNext(old(current), old(Filled(edit)), current)
      ensures PointersMove(old(compactPointer), edit, compactPointer)
      ensures unlogged == (if old(descriptor) == [] then {} else old(unlogged)) - Named(edit)
      ensures descriptor == (if old(descriptor) == []
                             then [Encode(SnapshotEdit(old(current), compactPointer, comparatorName))]
                             else old(descriptor)) + [Encode(old(Filled(edit)))]
      ensures Some(logNumber) == old(Filled(edit)).logNumber && Some(prevLogNumber) == old(Filled(edit)).prevLogNumber
    {
      LogFilled(Filled(edit));
    }

    method LogFilled(e: VersionEdit)
      requires Valid() && LevelsExist(e) && InRange(e) && ComparatorMatches(e, comparatorName) && FreshFor(e)
      requires e.logNumber.Some? && e.prevLogNumber.Some? && e.nextFileNumber.Some? && e.lastSequence.Some?
      modifies this`current, this`logNumber, this`prevLogNumber, this`descriptor, this`history, this`compactPointer,
        this`unlogged
      ensures Valid() && IsNext(old(current), e, current) && PointersMove(old(compactPointer), e, compactPointer)
      ensures unlogged == (if old(descriptor) == [] then {} else old(unlogged)) - Named(e)
      ensures descriptor == (if old(descriptor) == []
                             then [Encode(SnapshotEdit(old(current), compactPointer, comparatorName))]
                             else old(descriptor)) + [Encode(e)]
      ensures Some(logNumber) == e.logNumber && Some(prevLogNumber) == e.prevLogNumber
    {
      ghost var pointers, isNew := compactPointer, descriptor == [];
      var v := BuildNext(e);
      KeptPointers(isNew, current, pointers, e, compactPointer, comparatorName, history, unlogged);
      LogAndInstall(e, v);
      unlogged := (if isNew then {} else unlogged) - Named(e);
    }

    method BuildNext(e: VersionEdit) returns (v: Levels)
      requires Consistent() && LevelsExist(e) && InRange(e) && FreshFor(e)
      modifies this`compactPointer
      ensures Consistent() && IsNext(current, e, v) && GoodFiles(v)
        && PointersMove(old(compactPointer), e, compactPointer)
    {
      v := Build(e);
      NextIsFine(e, v);
    }

    method LogAndInstall(e: VersionEdit, v: Levels)
      requires Consistent() && GoodFiles(v) && InRange(e) && ComparatorMatches(e, comparatorName) && FreshFor(e)
        && IsNext(current, e, v)
      requires e.logNumber.Some? && e.prevLogNumber.Some? && e.nextFileNumber.Some? && e.lastSequence.Some?
      modifies this`current, this`logNumber, this`prevLogNumber, this`descriptor, this`history
      ensures Consistent() && current == v && Some(logNumber) == e.logNumber && Some(prevLogNumber) == e.prevLogNumber
      ensures descriptor == (if old(descriptor) == []
                             then [Encode(SnapshotEdit(old(current), compactPointer, comparatorName))]
                             else old(descriptor)) + [Encode(e)]
      ensures history == (if old(descriptor) == []
                          then [SnapshotEdit(old(current), compactPointer, comparatorName)] else old(history)) + [e]
    {
      LogRecord(e, v);
      Install(e, v);
    }

    /** The manifest, begun with a snapshot if it is new, with one more record. */
    method LogRecord(e: VersionEdit, ghost v: Levels)
      requires Consistent() && InRange(e) && ComparatorMatches(e, comparatorName) && FreshFor(e)
        && IsNext(current, e, v)
      modifies this`descriptor, this`history
      ensures descriptor == (if old(descriptor) == []
                             then [Encode(SnapshotEdit(current, compactPointer, comparatorName))]
                             else old(descriptor)) + [Encode(e)]
      ensures history == (if old(descriptor) == []
                          then [SnapshotEdit(current, compactPointer, comparatorName)] else old(history)) + [e]
      ensures DecodeAll(descriptor) == Some(history) && Tracks(history, v, comparatorName)
    {
      StartManifest(e, v);
      AddRecord(e, v);
    }

    /** The new version becomes current, under the log numbers of its edit. */
    method Install(e: VersionEdit, v: Levels)
      requires |comparatorName| < UINT32_LIMIT && GoodFiles(v) && GoodPointers(compactPointer)
      requires descriptor != [] && DecodeAll(descriptor) == Some(history) && Tracks(history, v, comparatorName)
      requires history != [] && history[|history| - 1] == e
      requires e.logNumber.Some? && e.prevLogNumber.Some? && e.nextFileNumber.Some? && e.lastSequence.Some?
      modifies this`current, this`logNumber, this`prevLogNumber
      ensures Consistent() && current == v && Some(logNumber) == e.logNumber && Some(prevLogNumber) == e.prevLogNumber
    {
      current := v;
      logNumber := e.logNumber.value;
      prevLogNumber := e.prevLogNumber.value;
    }

    /** descriptor_log_->AddRecord of the encoded edit. */
    method AddRecord(e: VersionEdit, ghost v: Levels)
      requires DecodeAll(descriptor) == Some(history) && Tracks(history, current, comparatorName)
      requires InRange(e) && ComparatorMatches(e, comparatorName) && FreshFor(e) && IsNext(current, e, v)
      modifies this`descriptor, this`history
      ensures descriptor == old(descriptor) + [Encode(e)] && history == old(history) + [e]
      ensures DecodeAll(descriptor) == Some(history) && Tracks(history, v, comparatorName)
    {
      forall l | 0 <= l < NUM_LEVELS
        ensures FreshEdits([], history + [e], l) && IsListing(v[l], Built([], ApplyEdits(history + [e], l)))
      {
        TracksNext(history, current, e, comparatorName, l);
      }
      RecordAppended(descriptor, history, e);
      var record := EncodeTo(e);
      descriptor := descriptor + [record];
      history := history + [e];
    }

    /** Builder(current), Apply, SaveTo. */
    method Build(e: VersionEdit) returns (v: Levels)
      requires Consistent() && LevelsExist(e) && InRange(e) && FreshFor(e)
      modifies this`compactPointer
      ensures Consistent() && IsNext(current, e, v) && PointersMove(old(compactPointer), e, compactPointer)
    {
      var builder := new Builder(current, compactPointer);
      builder.Apply(e);
      forall l | 0 <= l < NUM_LEVELS ensures NoNumberTwice(current[l], builder.levels[l].added) {
        AdditionsAreNew(current[l], e, l, AddedBy(history, l));
      }
      v := builder.SaveTo();
      MovedInRange(compactPointer, e, builder.compactPointer);
      compactPointer := builder.compactPointer;
    }

    lemma NextIsFine(e: VersionEdit, v: Levels)
      requires Consistent() && InRange(e) && FreshFor(e) && IsNext(current, e, v)
      ensures GoodFiles(v)
    {
      FilesAreFields(e.newFiles);
      forall l | 0 <= l < NUM_LEVELS
        ensures DistinctNumbers(FileSet(v[l])) && forall f :: f in v[l] ==> InRangeField(NewFile(l, f))
      {
        assert Numbers(FileSet(current[l])) <= Numbers(FileSet(current[l]) + AddedBy(history, l));
        NextFiles(current[l], e, l);
        forall f | f in v[l] ensures InRangeField(NewFile(l, f)) {
          assert f in FileSet(v[l]);
          if f !in current[l] {
            assert (l, f) in e.newFiles;
            assert NewFile(l, f) in Fields(e);
          }
        }
      }
    }
  }

  lemma AdditionsAreNew(current: seq<FileMeta>, e: VersionEdit, l: nat, more: set<FileMeta>)
    requires FreshAdditions(Numbers(FileSet(current) + more), e.newFiles, l)
    ensures NoNumberTwice(current, ApplyEdit(LevelState({}, []), e, l).added)
  {
    AddFilesEffect(LevelState({} + Deletions(e, l), []), e.newFiles, l);
    forall f, g | f in current && g in ApplyEdit(LevelState({}, []), e, l).added ensures f.number != g.number {
      assert f.number in Numbers(FileSet(current) + more);
      assert g in FileSet(ApplyEdit(LevelState({}, []), e, l).added);
    }
  }

  /** Recovery equals memory: replaying the manifest gives the current version, the log numbers, and the
      compaction pointers that were ever logged. */
  lemma ManifestRebuildsCurrent(vs: VersionSet, r: Recovered)
    requires vs.Valid() && vs.descriptor != []
    requires AddUpTo(DecodeAll(vs.descriptor).value, r.levels)
      && PointTo(DecodeAll(vs.descriptor).value, r.compactPointer)
    requires LastSet(DecodeAll(vs.descriptor).value, LogNumberOf) == Some(r.logNumber)
    requires OrElse(LastSet(DecodeAll(vs.descriptor).value, PrevLogNumberOf), Some(0)) == Some(r.prevLogNumber)
    ensures r.levels == vs.current && r.logNumber == vs.logNumber && r.prevLogNumber == vs.prevLogNumber
    ensures forall l :: 0 <= l < NUM_LEVELS && l !in vs.unlogged ==> r.compactPointer[l] == vs.compactPointer[l]
  {
    forall l | 0 <= l < NUM_LEVELS ensures r.levels[l] == vs.current[l] {
      ListingIsUnique(r.levels[l], vs.current[l]);
    }
  }

  /** Reopening: recovery of the manifest succeeds and finds what memory holds. */
  method Reopen(vs: VersionSet) returns (r: Status<Recovered>)
    requires vs.Valid() && vs.descriptor != []
    ensures r.Ok? && r.value.levels == vs.current
    ensures r.value.logNumber == vs.logNumber && r.value.prevLogNumber == vs.prevLogNumber
    ensures forall l :: 0 <= l < NUM_LEVELS && l !in vs.unlogged ==> r.value.compactPointer[l] == vs.compactPointer[l]
  {
    r := Recover(vs.descriptor, vs.comparatorName);
    ManifestRebuildsCurrent(vs, r.value);
  }
}
