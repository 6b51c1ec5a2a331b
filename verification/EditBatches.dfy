// The manifest: one edit after another, and the version they add up to (db/version_set.cc).

/** Applying a run of edits at once is applying them one by one. */
module EditBatches {
  import opened DbFormat
  import opened VersionEdits
  import opened Builder

  function Numbers(files: set<FileMeta>): set<nat> {
    set f | f in files :: f.number
  }

  /** The files an edit adds to the level have numbers of their own, none of them taken. */
  ghost predicate FreshAdditions(taken: set<nat>, newFiles: seq<(nat, FileMeta)>, level: nat) {
    && (forall f :: f in newFiles && f.0 == level ==> f.1.number !in taken)
    && (forall i, j :: 0 <= i < j < |newFiles| && newFiles[i].0 == level == newFiles[j].0 ==>
      newFiles[i].1.number != newFiles[j].1.number)
  }

  /** Everything the edits ever add to the level. */
  function AddedBy(edits: seq<VersionEdit>, level: nat): set<FileMeta> {
    set i, f | 0 <= i < |edits| && f in Additions(edits[i], level) :: f
  }

  /** No file number is added twice to the level. */
  ghost predicate FreshEdits(base: seq<FileMeta>, edits: seq<VersionEdit>, level: nat) {
    forall i :: 0 <= i < |edits| ==>
      FreshAdditions(Numbers(FileSet(base) + AddedBy(edits[..i], level)), edits[i].newFiles, level)
  }

  function AdditionsOf(newFiles: seq<(nat, FileMeta)>, level: nat): set<FileMeta> {
    set f | f in newFiles && f.0 == level :: f.1
  }

  lemma {:induction false} AddFilesEffect(s: LevelState, newFiles: seq<(nat, FileMeta)>, level: nat)
    requires SortedFiles(s.added) && FreshAdditions(Numbers(FileSet(s.added)), newFiles, level)
    ensures var r := AddFiles(s, newFiles, level);
      && SortedFiles(r.added) && FileSet(r.added) == FileSet(s.added) + AdditionsOf(newFiles, level)
      && r.deleted == s.deleted - Numbers(AdditionsOf(newFiles, level))
    decreases newFiles
  {
    if newFiles != [] {
      var n := |newFiles| - 1;
      var front, last := newFiles[..n], newFiles[n];
      AdditionsSplit(newFiles, level);
      assert FreshAdditions(Numbers(FileSet(s.added)), front, level);
      AddFilesEffect(s, front, level);
      var r := AddFiles(s, front, level);
      if last.0 == level {
        LastNumberIsNew(s.added, newFiles, level);
        InsertKeepsOrder(r.added, last.1);
      }
    }
  }

  lemma AdditionsSplit(newFiles: seq<(nat, FileMeta)>, level: nat)
    requires newFiles != []
    ensures var n := |newFiles| - 1;
      var more := if newFiles[n].0 == level then {newFiles[n].1} else {};
      && AdditionsOf(newFiles, level) == AdditionsOf(newFiles[..n], level) + more
      && Numbers(AdditionsOf(newFiles, level)) == Numbers(AdditionsOf(newFiles[..n], level)) + Numbers(more)
    ensures newFiles[|newFiles| - 1].0 == level ==>
      Numbers({newFiles[|newFiles| - 1].1}) == {newFiles[|newFiles| - 1].1.number}
  {
    assert newFiles == newFiles[..|newFiles| - 1] + [newFiles[|newFiles| - 1]];
  }

  lemma LastNumberIsNew(present: seq<FileMeta>, newFiles: seq<(nat, FileMeta)>, level: nat)
    requires newFiles != [] && newFiles[|newFiles| - 1].0 == level
    requires FreshAdditions(Numbers(FileSet(present)), newFiles, level)
    ensures forall g :: g in FileSet(present) + AdditionsOf(newFiles[..|newFiles| - 1], level) ==>
      g.number != newFiles[|newFiles| - 1].1.number
  {
    var n := |newFiles| - 1;
    forall g | g in FileSet(present) + AdditionsOf(newFiles[..n], level) ensures g.number != newFiles[n].1.number {
      if g in FileSet(present) {
        assert g.number in Numbers(FileSet(present)) && newFiles[n] in newFiles;
      } else {
        var i :| 0 <= i < n && newFiles[..n][i].0 == level && newFiles[..n][i].1 == g;
        assert newFiles[i] == newFiles[..n][i];
      }
    }
  }

  /** What the builder holds after the edits: all files added, and the deletions still in force. */
  lemma {:induction false} ApplyEditsEffect(base: seq<FileMeta>, edits: seq<VersionEdit>, level: nat)
    requires FreshEdits(base, edits, level)
    ensures SortedFiles(ApplyEdits(edits, level).added)
    ensures FileSet(ApplyEdits(edits, level).added) == AddedBy(edits, level)
  {
    if edits != [] {
      var n := |edits| - 1;
      var front, e := edits[..n], edits[n];
      FreshPrefix(base, edits, level);
      ApplyEditsEffect(base, front, level);
      var s := ApplyEdits(front, level);
      AddFilesEffect(LevelState(s.deleted + Deletions(e, level), s.added), e.newFiles, level);
      AddedBySplit(edits, level);
    }
  }

  lemma FreshPrefix(base: seq<FileMeta>, edits: seq<VersionEdit>, level: nat)
    requires edits != [] && FreshEdits(base, edits, level)
    ensures FreshEdits(base, edits[..|edits| - 1], level)
    ensures FreshAdditions(Numbers(FileSet(base) + AddedBy(edits[..|edits| - 1], level)), edits[|edits| - 1].newFiles,
                           level)
    ensures FreshAdditions(Numbers(AddedBy(edits[..|edits| - 1], level)), edits[|edits| - 1].newFiles, level)
  {
    var front := edits[..|edits| - 1];
    forall i | 0 <= i < |front|
      ensures FreshAdditions(Numbers(FileSet(base) + AddedBy(front[..i], level)), front[i].newFiles, level)
    {
      assert front[..i] == edits[..i];
    }
    assert Numbers(AddedBy(front, level)) <= Numbers(FileSet(base) + AddedBy(front, level));
  }

  lemma AddedBySplit(edits: seq<VersionEdit>, level: nat)
    requires edits != []
    ensures AddedBy(edits, level) == AddedBy(edits[..|edits| - 1],
                                             level) + AdditionsOf(edits[|edits| - 1].newFiles, level)
  {
    var n := |edits| - 1;
    forall f | f in AddedBy(edits, level)
      ensures f in AddedBy(edits[..n], level) || f in AdditionsOf(edits[n].newFiles, level)
    {
      var i :| 0 <= i < |edits| && f in Additions(edits[i], level);
      if i < n {
        assert edits[..n][i] == edits[i];
      }
    }
    forall f | f in AddedBy(edits[..n], level) ensures f in AddedBy(edits, level) {
      var i :| 0 <= i < n && f in Additions(edits[..n][i], level);
      assert edits[i] == edits[..n][i];
    }
    assert AdditionsOf(edits[n].newFiles, level) == Additions(edits[n], level);
  }

  /** One more edit on top of a run: the batch gives what the edit makes of the run's result. */
  lemma OneMoreEdit(base: seq<FileMeta>, edits: seq<VersionEdit>, middle: seq<FileMeta>, level: nat)
    requires edits != [] && FreshEdits(base, edits, level)
    requires FileSet(middle) == Built(base, ApplyEdits(edits[..|edits| - 1], level))
    ensures Built(base, ApplyEdits(edits, level))
      == Built(middle, ApplyEdit(LevelState({}, []), edits[|edits| - 1], level))
    ensures SortedFiles(ApplyEdit(LevelState({}, []), edits[|edits| - 1], level).added)
    ensures NoNumberTwice(middle, ApplyEdit(LevelState({}, []), edits[|edits| - 1], level).added)
  {
    var n := |edits| - 1;
    var front, e := edits[..n], edits[n];
    FreshPrefix(base, edits, level);
    ApplyEditsEffect(base, front, level);
    var s := ApplyEdits(front, level);
    AddFilesEffect(LevelState(s.deleted + Deletions(e, level), s.added), e.newFiles, level);
    AddFilesEffect(LevelState(Deletions(e, level), []), e.newFiles, level);
    assert {} + Deletions(e, level) == Deletions(e, level);
    var added := AdditionsOf(e.newFiles, level);
    forall f, g | f in FileSet(base) + FileSet(s.added) && g in added ensures f.number != g.number {
      assert f.number in Numbers(FileSet(base) + AddedBy(front, level));
    }
    var step := ApplyEdit(LevelState({}, []), e, level);
    assert FileSet(step.added) == added;
    forall f, g | f in middle && g in step.added ensures f.number != g.number {
      assert f in FileSet(middle) && g in FileSet(step.added);
    }
  }

  /** versions is what applying the edits one after the other gives. */
  ghost predicate Stepwise(versions: seq<Levels>, edits: seq<VersionEdit>) {
    && |versions| == |edits| + 1
    && forall i, l :: 0 <= i < |edits| && 0 <= l < NUM_LEVELS ==>
      IsListing(versions[i + 1][l], Built(versions[i][l], ApplyEdit(LevelState({}, []), edits[i], l)))
  }

  /** The builder's batch and the step-by-step versions agree on every level. */
  lemma {:induction false} BatchEqualsStepwise(versions: seq<Levels>, edits: seq<VersionEdit>, level: nat)
    requires Stepwise(versions, edits) && level < NUM_LEVELS
    requires SortedFiles(versions[0][level]) && FreshEdits(versions[0][level], edits, level)
    ensures IsListing(versions[|edits|][level], Built(versions[0][level], ApplyEdits(edits, level)))
    decreases |edits|
  {
    if edits != [] {
      var n := |edits| - 1;
      FreshPrefix(versions[0][level], edits, level);
      assert versions[..n + 1][n] == versions[n] && versions[..n + 1][0] == versions[0];
      forall i, l | 0 <= i < n && 0 <= l < NUM_LEVELS
        ensures IsListing(versions[..n + 1][i + 1][l],
                          Built(versions[..n + 1][i][l], ApplyEdit(LevelState({}, []), edits[..n][i], l)))
      {
        assert versions[..n + 1][i + 1] == versions[i + 1] && versions[..n + 1][i] == versions[i]
          && edits[..n][i] == edits[i];
      }
      BatchEqualsStepwise(versions[..n + 1], edits[..n], level);
      OneMoreEdit(versions[0][level], edits, versions[n][level], level);
      assert versions[n + 1] == versions[|edits|];
    } else {
      assert Built(versions[0][level], LevelState({}, [])) == FileSet(versions[0][level]);
    }
  }
}
