// Applying edits and rebuilding a version from the manifest (db/version_set.cc).

/** The file metadata order and VersionSet::Builder. */
module Builder {
  import opened DbFormat
  import opened Coding
  import opened Comparator
  import opened VersionEdits

  /** The compaction pointer of each level, empty if there is none. */
  type Pointers = p: seq<Bytes> | |p| == NUM_LEVELS witness seq(NUM_LEVELS, _ => [])

  type Levels = v: seq<seq<FileMeta>> | |v| == NUM_LEVELS witness seq(NUM_LEVELS, _ => [])

  function UserPart(key: Bytes): Bytes {
    if |key| < 8 then [] else key[..|key| - 8]
  }

  function Fixed(b: Bytes): nat {
    if b == [] then 0 else b[0] + 256 * Fixed(b[1..])
  }

  function TagPart(key: Bytes): nat {
    if |key| < 8 then 0 else Fixed(key[|key| - 8..])
  }

  predicate KeyBefore(a: Bytes, b: Bytes) {
    var x, y := Rank(UserPart(a)), Rank(UserPart(b));
    x < y || (x == y && TagPart(a) > TagPart(b))
  }

  predicate KeyEqual(a: Bytes, b: Bytes) {
    Rank(UserPart(a)) == Rank(UserPart(b)) && TagPart(a) == TagPart(b)
  }

  /** BySmallestKey: by smallest key, ties broken by file number. */
  predicate FileBefore(f: FileMeta, g: FileMeta) {
    KeyBefore(f.smallest, g.smallest) || (KeyEqual(f.smallest, g.smallest) && f.number < g.number)
  }

  ghost predicate SortedFiles(files: seq<FileMeta>) {
    forall i, j :: 0 <= i < j < |files| ==> FileBefore(files[i], files[j])
  }

  function FileSet(files: seq<FileMeta>): set<FileMeta> {
    set f | f in files
  }

  /** The files of the set, in order. */
  ghost predicate IsListing(files: seq<FileMeta>, s: set<FileMeta>) {
    SortedFiles(files) && FileSet(files) == s
  }

  /** There is only one such listing. */
  lemma {:induction false} ListingIsUnique(a: seq<FileMeta>, b: seq<FileMeta>)
    requires SortedFiles(a) && SortedFiles(b) && FileSet(a) == FileSet(b)
    ensures a == b
    decreases a
  {
    assert b == [] || b[0] in FileSet(b);
    if a != [] {
      assert a[0] in FileSet(a);
      assert b != [] && b[0] in FileSet(b);
      var i :| 0 <= i < |a| && a[i] == b[0];
      var j :| 0 <= j < |b| && b[j] == a[0];
      assert a[0] == b[0];
      TailSet(a);
      TailSet(b);
      ListingIsUnique(a[1..], b[1..]);
      assert a == [a[0]] + a[1..] && b == [b[0]] + b[1..];
    }
  }

  lemma TailSet(a: seq<FileMeta>)
    requires a != [] && SortedFiles(a)
    ensures SortedFiles(a[1..]) && FileSet(a[1..]) == FileSet(a) - {a[0]}
  {
    forall f | f in FileSet(a) - {a[0]} ensures f in FileSet(a[1..]) {
      var i :| 0 <= i < |a| && a[i] == f;
      assert a[1..][i - 1] == f;
    }
    forall f | f in FileSet(a[1..]) ensures f in FileSet(a) && f != a[0] {
      var i :| 0 <= i < |a| - 1 && a[1..][i] == f;
      assert FileBefore(a[0], a[i + 1]);
    }
  }

  /** What a builder knows of one level. */
  datatype LevelState = LevelState(deleted: set<nat>, added: seq<FileMeta>)

  /** std::set::insert under BySmallestKey: a file that compares equal is already there. */
  function InsertFile(files: seq<FileMeta>, f: FileMeta): seq<FileMeta> {
    if files == [] || FileBefore(f, files[0]) then [f] + files
    else if !FileBefore(files[0], f) then files
    else [files[0]] + InsertFile(files[1..], f)
  }

  lemma ConsSorted(f: FileMeta, rest: seq<FileMeta>)
    requires SortedFiles(rest) && forall g :: g in FileSet(rest) ==> FileBefore(f, g)
    ensures SortedFiles([f] + rest) && FileSet([f] + rest) == {f} + FileSet(rest)
  {
    forall i | 0 <= i < |rest| ensures FileBefore(f, rest[i]) {
      assert rest[i] in FileSet(rest);
    }
  }

  lemma {:induction false} InsertKeepsOrder(files: seq<FileMeta>, f: FileMeta)
    requires SortedFiles(files)
    ensures SortedFiles(InsertFile(files, f))
    ensures FileSet(InsertFile(files, f)) <= FileSet(files) + {f}
    ensures (forall g :: g in FileSet(files) ==> g.number != f.number) ==>
      FileSet(InsertFile(files, f)) == FileSet(files) + {f}
  {
    if files == [] || FileBefore(f, files[0]) {
      forall g | g in FileSet(files) ensures FileBefore(f, g) {
        var i :| 0 <= i < |files| && files[i] == g;
      }
      ConsSorted(f, files);
    } else if FileBefore(files[0], f) {
      TailSet(files);
      InsertKeepsOrder(files[1..], f);
      FirstIsBefore(files);
      ConsSorted(files[0], InsertFile(files[1..], f));
    } else {
      assert files[0] in FileSet(files);
    }
  }

  lemma FirstIsBefore(files: seq<FileMeta>)
    requires files != [] && SortedFiles(files)
    ensures forall g :: g in FileSet(files[1..]) ==> FileBefore(files[0], g)
    ensures files[0] in FileSet(files)
  {
    forall g | g in FileSet(files[1..]) ensures FileBefore(files[0], g) {
      var i :| 0 <= i < |files| - 1 && files[1..][i] == g;
    }
  }

  function AddFiles(s: LevelState, newFiles: seq<(nat, FileMeta)>, level: nat): LevelState
    decreases newFiles
  {
    if newFiles == [] then s
    else
      var n := |newFiles| - 1;
      var r := AddFiles(s, newFiles[..n], level);
      var f := newFiles[n].1;
      if newFiles[n].0 == level then LevelState(r.deleted - {f.number}, InsertFile(r.added, f)) else r
  }

  function Deletions(e: VersionEdit, level: nat): set<nat> {
    set d | d in e.deletedFiles && d.0 == level :: d.1
  }

  function Additions(e: VersionEdit, level: nat): set<FileMeta> {
    set f | f in e.newFiles && f.0 == level :: f.1
  }

  /** One edit: deletions first, then additions, which revoke a deletion of the same number. */
  function ApplyEdit(s: LevelState, e: VersionEdit, level: nat): LevelState {
    AddFiles(LevelState(s.deleted + Deletions(e, level), s.added), e.newFiles, level)
  }

  function ApplyEdits(edits: seq<VersionEdit>, level: nat): LevelState {
    if edits == [] then LevelState({}, [])
    else ApplyEdit(ApplyEdits(edits[..|edits| - 1], level), edits[|edits| - 1], level)
  }

  /** The files of the level that survive. */
  function Built(base: seq<FileMeta>, s: LevelState): set<FileMeta> {
    set f | f in FileSet(base) + FileSet(s.added) && f.number !in s.deleted
  }

  /** The pointer a level ends up with: the last one named. */
  function LastPointer(p: Bytes, pointers: seq<(nat, Bytes)>, level: nat): Bytes
    decreases pointers
  {
    if pointers == [] then p
    else
      var last := pointers[|pointers| - 1];
      if last.0 == level then last.1 else LastPointer(p, pointers[..|pointers| - 1], level)
  }

  class Builder {
    const base: Levels
    var levels: seq<LevelState>
    var compactPointer: Pointers

    ghost predicate Valid()
      reads this
    {
      && |levels| == NUM_LEVELS
      && forall l :: 0 <= l < NUM_LEVELS ==> SortedFiles(base[l]) && SortedFiles(levels[l].added)
    }

    /** compactPointer: those of the version set, which Apply updates. */
    constructor (base: Levels, compactPointer: Pointers)
      requires forall l :: 0 <= l < NUM_LEVELS ==> SortedFiles(base[l])
      ensures Valid() && this.base == base && this.compactPointer == compactPointer
      ensures forall l :: 0 <= l < NUM_LEVELS ==> levels[l] == LevelState({}, [])
    {
      this.base := base;
      levels := seq(NUM_LEVELS, _ => LevelState({}, []));
      this.compactPointer := compactPointer;
    }

    /** Apply: pointers, then deletions, then additions. */
    method Apply(e: VersionEdit)
      requires Valid() && LevelsExist(e)
      modifies this
      ensures Valid()
      ensures forall l :: 0 <= l < NUM_LEVELS ==> levels[l] == ApplyEdit(old(levels[l]), e, l)
      ensures forall l :: 0 <= l < NUM_LEVELS ==>
        compactPointer[l] == LastPointer(old(compactPointer[l]), e.compactPointers, l)
    {
      ApplyPointers(e);
      ApplyDeletions(e);
      ApplyAdditions(e);
    }

    method ApplyPointers(e: VersionEdit)
      requires Valid() && LevelsExist(e)
      modifies this`compactPointer
      ensures Valid()
      ensures forall l :: 0 <= l < NUM_LEVELS ==>
        compactPointer[l] == LastPointer(old(compactPointer[l]), e.compactPointers, l)
    {
      for i := 0 to |e.compactPointers|
        invariant Valid()
        invariant forall l :: 0 <= l < NUM_LEVELS ==>
          compactPointer[l] == LastPointer(old(compactPointer[l]), e.compactPointers[..i], l)
      {
        assert e.compactPointers[i] in e.compactPointers && e.compactPointers[..i + 1][..i] == e.compactPointers[..i];
        compactPointer := compactPointer[e.compactPointers[i].0 := e.compactPointers[i].1];
      }
      assert e.compactPointers[..|e.compactPointers|] == e.compactPointers;
    }

    method ApplyAdditions(e: VersionEdit)
      requires Valid() && LevelsExist(e)
      modifies this`levels
      ensures Valid()
      ensures forall l :: 0 <= l < NUM_LEVELS ==> levels[l] == AddFiles(old(levels[l]), e.newFiles, l)
    {
      ghost var after := levels;
      for i := 0 to |e.newFiles|
        invariant Valid()
        invariant forall l :: 0 <= l < NUM_LEVELS ==> levels[l] == AddFiles(after[l], e.newFiles[..i], l)
      {
        assert e.newFiles[i] in e.newFiles && e.newFiles[..i + 1][..i] == e.newFiles[..i];
        var (l, f) := e.newFiles[i];
        InsertKeepsOrder(levels[l].added, f);
        levels := levels[l := LevelState(levels[l].deleted - {f.number}, InsertFile(levels[l].added, f))];
      }
      assert e.newFiles[..|e.newFiles|] == e.newFiles;
    }

    method ApplyDeletions(e: VersionEdit)
      requires Valid() && LevelsExist(e)
      modifies this`levels
      ensures Valid()
      ensures forall l :: 0 <= l < NUM_LEVELS ==>
        levels[l] == LevelState(old(levels[l].deleted) + Deletions(e, l), old(levels[l].added))
    {
      ghost var before := levels;
      for i := 0 to |e.deletedFiles|
        invariant Valid()
        invariant forall l :: 0 <= l < NUM_LEVELS ==> levels[l].added == before[l].added
        invariant forall l :: 0 <= l < NUM_LEVELS ==>
          levels[l].deleted == before[l].deleted + set d | d in e.deletedFiles[..i] && d.0 == l :: d.1
      {
        var d := e.deletedFiles[i];
        assert d in e.deletedFiles && e.deletedFiles[..i + 1] == e.deletedFiles[..i] + [d];
        levels := levels[d.0 := levels[d.0].(deleted := levels[d.0].deleted + {d.1})];
      }
      assert e.deletedFiles[..|e.deletedFiles|] == e.deletedFiles;
    }

    /** SaveTo: each level is the listing of its surviving files. */
    method SaveTo() returns (v: Levels)
      requires Valid()
      requires forall l :: 0 <= l < NUM_LEVELS ==> NoNumberTwice(base[l], levels[l].added)
      ensures forall l :: 0 <= l < NUM_LEVELS ==> IsListing(v[l], Built(base[l], levels[l]))
    {
      v := seq(NUM_LEVELS, _ => []);
      for l := 0 to NUM_LEVELS
        invariant forall k :: 0 <= k < l ==> IsListing(v[k], Built(base[k], levels[k]))
      {
        var files := MergeLevel(base[l], levels[l]);
        v := v[l := files];
      }
    }
  }

  function MaybeAddFile(v: seq<FileMeta>, s: LevelState, f: FileMeta): seq<FileMeta> {
    if f.number in s.deleted then v else v + [f]
  }

  /** No file number is added to a level that has it already. */
  ghost predicate NoNumberTwice(base: seq<FileMeta>, added: seq<FileMeta>) {
    forall f, g :: f in base && g in added ==> f.number != g.number
  }

  /** How far the merge has got: i base files and j added ones, in order and before all the rest. */
  ghost predicate Merged(v: seq<FileMeta>, base: seq<FileMeta>, i: nat, s: LevelState, j: nat) {
    && i <= |base| && j <= |s.added| && SortedFiles(v)
    && FileSet(v) == Built(base[..i], s.(added := s.added[..j]))
    && (forall f, k :: f in v && i <= k < |base| ==> FileBefore(f, base[k]))
    && (forall f, k :: f in v && j <= k < |s.added| ==> FileBefore(f, s.added[k]))
  }

  lemma AppendSorted(v: seq<FileMeta>, f: FileMeta)
    requires SortedFiles(v) && forall g :: g in v ==> FileBefore(g, f)
    ensures SortedFiles(v + [f]) && FileSet(v + [f]) == FileSet(v) + {f}
  {
  }

  lemma TakeOne(files: seq<FileMeta>, i: nat)
    requires i < |files|
    ensures FileSet(files[..i + 1]) == FileSet(files[..i]) + {files[i]}
  {
    assert files[..i + 1] == files[..i] + [files[i]];
  }

  lemma MergeBase(v: seq<FileMeta>, base: seq<FileMeta>, i: nat, s: LevelState, j: nat)
    requires SortedFiles(base) && SortedFiles(s.added) && NoNumberTwice(base, s.added)
    requires Merged(v, base, i, s, j) && i < |base| && (j < |s.added| ==> !FileBefore(s.added[j], base[i]))
    ensures Merged(MaybeAddFile(v, s, base[i]), base, i + 1, s, j)
  {
    AppendSorted(v, base[i]);
    TakeOne(base, i);
    assert base[i] in base;
    forall k | j <= k < |s.added| ensures FileBefore(base[i], s.added[k]) {
      assert s.added[j] in s.added;
      assert k == j || FileBefore(s.added[j], s.added[k]);
    }
  }

  lemma MergeAdded(v: seq<FileMeta>, base: seq<FileMeta>, i: nat, s: LevelState, j: nat)
    requires SortedFiles(base) && SortedFiles(s.added) && NoNumberTwice(base, s.added)
    requires Merged(v, base, i, s, j) && j < |s.added| && (i < |base| ==> FileBefore(s.added[j], base[i]))
    ensures Merged(MaybeAddFile(v, s, s.added[j]), base, i, s, j + 1)
  {
    AppendSorted(v, s.added[j]);
    TakeOne(s.added, j);
    forall k | i <= k < |base| ensures FileBefore(s.added[j], base[k]) {
      assert k == i || FileBefore(base[i], base[k]);
    }
  }

  /** The merge of a level's base and added files: before each added file, the base files up to
      std::upper_bound of it. */
  method MergeLevel(base: seq<FileMeta>, s: LevelState) returns (v: seq<FileMeta>)
    requires SortedFiles(base) && SortedFiles(s.added) && NoNumberTwice(base, s.added)
    ensures IsListing(v, Built(base, s))
  {
    v := [];
    var i := 0;
    for j := 0 to |s.added|
      invariant Merged(v, base, i, s, j)
    {
      while i < |base| && !FileBefore(s.added[j], base[i])
        invariant Merged(v, base, i, s, j)
      {
        MergeBase(v, base, i, s, j);
        v := MaybeAddFile(v, s, base[i]);
        i := i + 1;
      }
      MergeAdded(v, base, i, s, j);
      v := MaybeAddFile(v, s, s.added[j]);
    }
    while i < |base|
      invariant Merged(v, base, i, s, |s.added|)
    {
      MergeBase(v, base, i, s, |s.added|);
      v := MaybeAddFile(v, s, base[i]);
      i := i + 1;
    }
    assert base[..|base|] == base && s.added[..|s.added|] == s.added;
  }
}
