// From the choice of a merge to the installation of its result, with memtable flushes in between
// (DoCompactionWork in db/db_impl.cc).

module CompactionWindow {
  import opened DbFormat
  import opened Meaning
  import opened Versions
  import opened DropRule
  import opened CompactionRun
  import opened CompactionMeaning
  import opened FlushLevel
  import opened SortedLists

  /** A merge: its input version, the inputs and their range, and the smallest snapshot. */
  datatype Merge = Merge(base: Version, level: nat, in0: set<File>, in1: set<File>, low: UserKey, high: UserKey,
                         input: seq<Entry>, snapshot: nat)

  ghost predicate GoodVersion(v: Version) {
    WellFormed(v) && AgeOrdered(v)
  }

  ghost predicate Started(c: Merge) {
    ClosedPick(c.base, c.level, c.in0, c.in1, c.low, c.high) && IsMerge(c.input, c.in0 + c.in1)
  }

  /** What the merge writes, however it is cut into files. */
  ghost function KeptOf(c: Merge): seq<Entry> {
    Kept(c.input, c.snapshot, BaseTest(c.base, c.level), |c.input|)
  }

  /** The outputs of the merge, made with the base-level test on the input version. */
  ghost predicate Merged(c: Merge, outputs: seq<File>, numbers: nat -> nat) {
    IsCut(outputs, KeptOf(c), numbers)
  }

  /** All that is kept lies before the file, or all of it lies behind. */
  ghost predicate Aside(kept: seq<Entry>, g: File) {
    (forall e :: e in kept ==> Before(e.key, g.smallest)) || (forall e :: e in kept ==> Before(g.largest, e.key))
  }

  /** The files of the next level that stay leave room for whatever the outputs are. */
  ghost predicate HasRoom(v: Version, c: Merge)
    requires c.level + 1 < NUM_LEVELS
  {
    forall g :: g in v[c.level + 1] && g !in c.in1 ==> Aside(KeptOf(c), g)
  }

  /** No marker that is dropped uncovers a value outside the merge. */
  ghost predicate NothingReturns(v: Version, c: Merge) {
    !exists i: nat, d ::
      BringsBack(Untouched(v, c.level, c.in0, c.in1), c.input, c.snapshot, BaseTest(c.base, c.level), i, d)
  }

  /** What can be told of the levels and the inputs before the merge: no older entry of a user key that
      it keeps stays in its level, and no marker that it drops uncovers a value. */
  ghost predicate IsSafe(c: Merge) {
    c.level + 1 < NUM_LEVELS && StaysAbove(c.base, c.level, c.in0, KeptOf(c)) && NothingReturns(c.base, c)
  }

  ghost predicate InputsThere(v: Version, c: Merge) {
    InputsFrom(v, c.level, c.in0, c.in1) && IsMerge(c.input, c.in0 + c.in1)
  }

  /** What the current version has to meet when the result comes. */
  ghost predicate StillFits(v: Version, c: Merge) {
    InputsThere(v, c) && HasRoom(v, c) && StaysAbove(v, c.level, c.in0, KeptOf(c)) && NothingReturns(v, c)
  }

  lemma KeptIsInput(c: Merge)
    ensures forall e :: e in KeptOf(c) ==> e in c.input
    ensures Sorted(c.input) ==> Sorted(KeptOf(c))
  {
    KeptExactly(c.input, c.snapshot, BaseTest(c.base, c.level), |c.input|);
    if Sorted(c.input) {
      KeptSorted(c.input, c.snapshot, BaseTest(c.base, c.level), |c.input|);
    }
  }

  lemma StartFits(c: Merge)
    requires GoodVersion(c.base) && Started(c) && IsSafe(c)
    ensures StillFits(c.base, c)
  {
    StartHasRoom(c);
  }

  lemma StartHasRoom(c: Merge)
    requires WellFormed(c.base) && Started(c)
    ensures HasRoom(c.base, c)
  {
    KeptIsInput(c);
    forall g | g in c.base[c.level + 1] && g !in c.in1 ensures Aside(KeptOf(c), g) {
      forall e | e in KeptOf(c) ensures if g.largest.user < c.low
        then Before(g.largest, e.key) else Before(e.key, g.smallest) {
        BystanderIsAside(c.base, c.level, c.in0, c.in1, c.low, c.high, c.input, g, e);
      }
    }
  }

  /** On boundary-clean levels every pick is safe. */
  lemma CleanIsSafe(c: Merge)
    requires GoodVersion(c.base) && CleanLevels(c.base) && Started(c)
    ensures IsSafe(c)
  {
    PickIsSafe(c.base, c.level, c.in0, c.in1, c.low, c.high);
    KeptIsInput(c);
    NewerStayersAreAbove(c.base, c.level, c.in0, c.in1, c.input, KeptOf(c));
    NewerStayersKeepMeaning(c.base, c.level, c.in0, c.in1, c.input, c.snapshot);
    forall i: nat, d | BringsBack(Untouched(c.base, c.level, c.in0, c.in1), c.input, c.snapshot,
                                  BaseTest(c.base, c.level), i, d)
      ensures MarkerBringsBack(c.base, c.level, c.in0, c.in1, c.input, c.snapshot, i, d)
    {
      ReturnsFromNearby(c.base, c.level, c.in0, c.in1, c.low, c.high, c.input, c.snapshot, i, d);
    }
  }

  /** A table of newer entries at a level that PickLevelForMemTableOutput allows. */
  ghost predicate Fits(v: Version, level: nat, f: File) {
    && ValidFile(f) && level <= MAX_MEM_COMPACT_LEVEL
    && (level > 0 ==> ClearDownTo(v, level, f.smallest.user, f.largest.user))
    && (forall l, g :: 0 <= l < NUM_LEVELS && g in v[l] ==> NewerThan(f, g))
      && (forall g :: g in v[0] ==> g.number < f.number)
  }

  /** The flushed file does not land within what the merge keeps, at the level of its outputs. */
  ghost predicate StaysOut(c: Merge, level: nat, f: File) {
    level == c.level + 1 ==> Aside(KeptOf(c), f)
  }

  /** Newer than all that is there, the file is not there yet. */
  lemma FlushedIsNew(v: Version, c: Merge, level: nat, f: File)
    requires InputsThere(v, c) && Fits(v, level, f)
    ensures (forall l :: 0 <= l < NUM_LEVELS ==> f !in v[l]) && f !in c.in0 && f !in c.in1
  {
    assert f.entries[0] in f.entries;
    forall l | 0 <= l < NUM_LEVELS ensures f !in v[l] {
      assert f in v[l] ==> NewerThan(f, f);
    }
    assert f !in FilesOf(v[c.level]) && f !in FilesOf(v[c.level + 1]);
  }

  lemma InputOf(v: Version, c: Merge, e: Entry) returns (m: nat, g: File)
    requires InputsThere(v, c) && e in c.input
    ensures m <= c.level + 1 < NUM_LEVELS && g in v[m] && e in g.entries && g in c.in0 + c.in1
    ensures (m == c.level && g in c.in0) || (m == c.level + 1 && g in c.in1)
  {
    g :| g in c.in0 + c.in1 && e in g.entries;
    m := if g in c.in0 then c.level else c.level + 1;
    assert g in FilesOf(v[m]);
  }

  /** What is flushed is newer than the inputs, so it uncovers nothing. */
  lemma FlushUncoversNothing(v: Version, c: Merge, level: nat, f: File, w: Version)
    requires InputsThere(v, c) && Fits(v, level, f) && Flushed(v, level, f, w) && NothingReturns(v, c)
    ensures NothingReturns(w, c)
  {
    var isBase := BaseTest(c.base, c.level);
    var before, after := Untouched(v, c.level, c.in0, c.in1), Untouched(w, c.level, c.in0, c.in1);
    FlushAddsUntouched(v, c, level, f, w);
    forall i: nat, d | BringsBack(after, c.input, c.snapshot, isBase, i, d)
      ensures BringsBack(before, c.input, c.snapshot, isBase, i, d) {
      FlushedIsNewer(v, c, level, f, c.input[i]);
      assert d in after + EntrySet(c.input);
      assert forall e :: e in before + EntrySet(c.input) ==> e in after + EntrySet(c.input);
    }
  }

  lemma FlushedIsNewer(v: Version, c: Merge, level: nat, f: File, e: Entry)
    requires InputsThere(v, c) && Fits(v, level, f) && e in c.input
    ensures AboveEntry(f, e)
  {
    var m, g := InputOf(v, c, e);
    assert NewerThan(f, g);
  }

  lemma FlushAddsUntouched(v: Version, c: Merge, level: nat, f: File, w: Version)
    requires InputsThere(v, c) && Fits(v, level, f) && Flushed(v, level, f, w)
    ensures Untouched(w, c.level, c.in0, c.in1) == Untouched(v, c.level, c.in0, c.in1) + EntrySet(f.entries)
  {
    FlushedIsNew(v, c, level, f);
    FileInFlushed(v, level, f, w);
    FilesStay(v, level, f, w);
  }

  lemma FilesStay(v: Version, level: nat, f: File, w: Version)
    requires level < NUM_LEVELS && Flushed(v, level, f, w)
    ensures f in w[level] && forall l, g :: 0 <= l < NUM_LEVELS && g in v[l] ==> g in w[l]
  {
    assert f in FilesOf(w[level]);
    forall l, g | 0 <= l < NUM_LEVELS && g in v[l] ensures g in w[l] {
      assert g in FilesOf(v[l]) && g in FilesOf(w[l]);
    }
  }

  /** After a flush the merge still fits exactly if the file stays out of what the merge keeps. */
  lemma FlushKeepsFit(v: Version, c: Merge, level: nat, f: File, w: Version)
    requires StillFits(v, c) && Fits(v, level, f) && Flushed(v, level, f, w)
    ensures StillFits(w, c) <==> StaysOut(c, level, f)
  {
    FlushedIsNew(v, c, level, f);
    FileInFlushed(v, level, f, w);
    FilesStay(v, level, f, w);
    assert c.in0 <= FilesOf(w[c.level]) && c.in1 <= FilesOf(w[c.level + 1]);
    FlushUncoversNothing(v, c, level, f, w);
    KeptIsInput(c);
    forall e | e in KeptOf(c) ensures AboveEntry(f, e) {
      FlushedIsNewer(v, c, level, f, e);
    }
  }

  /** Every user key of the range is within one of the inputs. */
  ghost predicate NoGaps(c: Merge) {
    c.low <= c.high && forall user :: c.low <= user <= c.high ==> InSome(c.in0 + c.in1, user)
  }

  ghost predicate InSome(files: set<File>, user: UserKey) {
    exists f :: f in files && f.smallest.user <= user <= f.largest.user
  }

  /** Without gaps no flush can land there: it would have met an input on its way down. */
  lemma NoGapKeepsFlushOut(v: Version, c: Merge, level: nat, f: File)
    requires WellFormed(v) && InputsThere(v, c) && Started(c) && NoGaps(c) && Fits(v, level, f)
    ensures StaysOut(c, level, f)
  {
    if level == c.level + 1 {
      if Overlaps(f, c.low, c.high) {
        MeetsInput(v, c, level, f);
      }
      EntryInRange(f, f.entries[0]);
      KeptIsInput(c);
      forall e | e in KeptOf(c) ensures if f.largest.user < c.low
        then Before(f.largest, e.key) else Before(e.key, f.smallest) {
        OutOfRange(v, c, level, f, e);
      }
    }
  }

  lemma MeetsInput(v: Version, c: Merge, level: nat, f: File)
    requires InputsThere(v, c) && NoGaps(c) && ValidFile(f) && level == c.level + 1 && Overlaps(f, c.low, c.high)
    ensures !ClearDownTo(v, level, f.smallest.user, f.largest.user)
  {
    EntryInRange(f, f.entries[0]);
    var user := if f.smallest.user < c.low then c.low else f.smallest.user;
    assert InSome(c.in0 + c.in1, user);
    var g :| g in c.in0 + c.in1 && g.smallest.user <= user <= g.largest.user;
    var l := if g in c.in0 then c.level else c.level + 1;
    assert g in FilesOf(v[l]) && g in v[l] && l <= level;
    assert Overlaps(g, f.smallest.user, f.largest.user);
  }

  /** A file that meets no input and lies outside the range has all the inputs on one side. */
  lemma OutOfRange(v: Version, c: Merge, level: nat, f: File, e: Entry)
    requires WellFormed(v) && InputsThere(v, c) && Started(c) && e in c.input && level == c.level + 1
    requires ValidFile(f) && ClearDownTo(v, level, f.smallest.user, f.largest.user) && !Overlaps(f, c.low, c.high)
    requires f.smallest.user <= f.largest.user
    ensures if f.largest.user < c.low then f.largest.user < e.key.user else e.key.user < f.smallest.user
  {
    var m, g := InputOf(v, c, e);
    EntryInRange(g, e);
    assert !Overlaps(g, f.smallest.user, f.largest.user);
    if g in c.in1 {
      assert g in FilesOf(c.base[c.level + 1]);
      assert Overlaps(g, c.low, c.high);
    }
  }

  /** Installed in a version that flushes may have added to, the merge keeps levels disjoint, whatever
      the outputs are; and the age order exactly if nothing older stays above what it keeps. */
  lemma InstallKeepsVersion(v: Version, c: Merge, outputs: seq<File>, numbers: nat -> nat, w: Version)
    requires GoodVersion(v) && InputsThere(v, c) && HasRoom(v, c) && IsOutcome(v, c, outputs, numbers, w)
    ensures WellFormed(w) && (AgeOrdered(w) <==> StaysAbove(v, c.level, c.in0, KeptOf(c)))
  {
    CompactionKeepsAge(v, c.level, c.in0, c.in1, c.input, c.snapshot, BaseTest(c.base, c.level), outputs, numbers, w);
    RoomKeepsLevels(v, c, outputs, numbers, w);
  }

  lemma CutIsClear(kept: seq<Entry>, outputs: seq<File>, numbers: nat -> nat, o: File, g: File)
    requires IsCut(outputs, kept, numbers) && o in outputs && Aside(kept, g)
    ensures Clear(o, g)
  {
    FlattenExactly(outputs);
    assert o.entries[0] in o.entries && o.entries[|o.entries| - 1] in o.entries;
    assert o.entries[0] in kept && o.entries[|o.entries| - 1] in kept;
  }

  /** The cut into one file. */
  ghost function OneOutput(kept: seq<Entry>, number: nat): File
    requires kept != []
  {
    File(number, 0, kept[0].key, kept[|kept| - 1].key, kept)
  }

  lemma OneFlattened(o: File)
    ensures Flatten([o]) == o.entries
  {
    assert [o][..0] == [];
  }

  lemma OneOutputIsCut(kept: seq<Entry>, number: nat, numbers: nat -> nat)
    requires kept != [] && numbers(0) == number
    ensures IsCut([OneOutput(kept, number)], kept, numbers)
  {
    OneFlattened(OneOutput(kept, number));
  }

  lemma CutIntoOne(kept: seq<Entry>, number: nat) returns (numbers: nat -> nat)
    requires kept != []
    ensures IsCut([OneOutput(kept, number)], kept, numbers)
  {
    numbers := _ => number;
    OneOutputIsCut(kept, number, numbers);
  }

  lemma OneOutputCrosses(kept: seq<Entry>, g: File, number: nat)
    requires Sorted(kept) && !Aside(kept, g)
    ensures !Clear(OneOutput(kept, number), g)
  {
    var o := OneOutput(kept, number);
    forall e | e in kept ensures (e.key == o.largest || Before(e.key, o.largest))
      && (e.key == o.smallest || Before(o.smallest, e.key)) {
      EntryInRange(o, e);
    }
  }

  ghost predicate CutsAreClear(kept: seq<Entry>, g: File) {
    forall outputs: seq<File>, numbers, o :: IsCut(outputs, kept, numbers) && o in outputs ==> Clear(o, g)
  }

  /** A cut, into one file, that the file g is in the way of. */
  lemma CrossingCut(kept: seq<Entry>, g: File, number: nat) returns (outputs: seq<File>, numbers: nat -> nat, o: File)
    requires Sorted(kept) && !Aside(kept, g)
    ensures IsCut(outputs, kept, numbers) && FilesOf(outputs) == {o} && o in outputs && o.number == number
      && !Clear(o, g)
  {
    o := OneOutput(kept, number);
    outputs := [o];
    numbers := CutIntoOne(kept, number);
    OneFileSet(o);
    OneOutputCrosses(kept, g, number);
  }

  lemma NotAllClear(kept: seq<Entry>, outputs: seq<File>, numbers: nat -> nat, o: File, g: File)
    requires IsCut(outputs, kept, numbers) && o in outputs && !Clear(o, g)
    ensures !CutsAreClear(kept, g)
  {
  }

  /** Every cut of what the merge keeps stays clear of the file, exactly if all of it lies on one side. */
  lemma CutsStayClear(kept: seq<Entry>, g: File)
    requires Sorted(kept)
    ensures CutsAreClear(kept, g) <==> Aside(kept, g)
  {
    if Aside(kept, g) {
      forall outputs: seq<File>, numbers, o | IsCut(outputs, kept, numbers) && o in outputs ensures Clear(o, g) {
        CutIsClear(kept, outputs, numbers, o, g);
      }
    } else {
      var outputs, numbers, o := CrossingCut(kept, g, 0);
      NotAllClear(kept, outputs, numbers, o, g);
    }
  }

  ghost predicate IsOutcome(v: Version, c: Merge, outputs: seq<File>, numbers: nat -> nat, w: Version)
    requires c.level + 1 < NUM_LEVELS
  {
    Merged(c, outputs, numbers) && Installed(v, c.level, c.in0, c.in1, FilesOf(outputs), w)
  }

  /** Tables may have been flushed beside the merge. Its result leaves levels disjoint, however it is cut
      and numbered, exactly if each of them lies on one side of all that the merge keeps. */
  lemma InstallBesideFlush(v: Version, c: Merge)
    requires WellFormed(v) && InputsThere(v, c)
    ensures (forall outputs, numbers, w :: IsOutcome(v, c, outputs, numbers, w) ==> WellFormed(w)) <==> HasRoom(v, c)
  {
    if HasRoom(v, c) {
      forall outputs, numbers, w | IsOutcome(v, c, outputs, numbers, w) ensures WellFormed(w) {
        RoomKeepsLevels(v, c, outputs, numbers, w);
      }
    } else {
      var g :| g in v[c.level + 1] && g !in c.in1 && !Aside(KeptOf(c), g);
      KeptIsInput(c);
      var outputs, numbers, w := OverlappingOutcome(v, c, KeptOf(c), g);
      assert IsOutcome(v, c, outputs, numbers, w);
    }
  }

  lemma OverlappingOutcome(v: Version, c: Merge, kept: seq<Entry>, g: File)
    returns (outputs: seq<File>, numbers: nat -> nat, w: Version)
    requires WellFormed(v) && InputsThere(v, c) && g in v[c.level + 1] && g !in c.in1 && Sorted(kept) && !Aside(kept, g)
    ensures IsCut(outputs, kept, numbers) && Installed(v, c.level, c.in0, c.in1, FilesOf(outputs), w) && !WellFormed(w)
  {
    var number := UnusedNumber(v[c.level + 1]);
    var o;
    outputs, numbers, o := CrossingCut(kept, g, number);
    w := InstallOne(v, c, o);
    OverlapsStaying(v, c, o, g, w);
  }

  lemma OneFileSet(o: File)
    ensures FilesOf([o]) == {o}
  {
  }

  lemma OverlapsStaying(v: Version, c: Merge, o: File, g: File, w: Version)
    requires InputsThere(v, c) && g in v[c.level + 1] && g !in c.in1 && g != o && !Clear(o, g)
    requires Installed(v, c.level, c.in0, c.in1, {o}, w)
    ensures !WellFormed(w)
  {
    assert g in FilesOf(w[c.level + 1]) && o in FilesOf(w[c.level + 1]);
  }

  lemma RoomKeepsLevels(v: Version, c: Merge, outputs: seq<File>, numbers: nat -> nat, w: Version)
    requires WellFormed(v) && InputsThere(v, c) && HasRoom(v, c) && IsOutcome(v, c, outputs, numbers, w)
    ensures WellFormed(w)
  {
    OutputsAreValid(outputs, c.input, c.snapshot, BaseTest(c.base, c.level), numbers);
    OutputsAreClear(v, c, KeptOf(c), outputs, numbers);
    AsideOutputsKeepLevels(v, c.level, c.in0, c.in1, c.input, FilesOf(outputs), w);
  }

  lemma OutputsAreClear(v: Version, c: Merge, kept: seq<Entry>, outputs: seq<File>, numbers: nat -> nat)
    requires c.level + 1 < NUM_LEVELS && IsCut(outputs, kept, numbers)
    requires forall g :: g in v[c.level + 1] && g !in c.in1 ==> Aside(kept, g)
    ensures forall g, o :: g in v[c.level + 1] && g !in c.in1 && o in FilesOf(outputs) ==> Clear(o, g)
  {
    forall g, o | g in v[c.level + 1] && g !in c.in1 && o in FilesOf(outputs) ensures Clear(o, g) {
      CutIsClear(kept, outputs, numbers, o, g);
    }
  }

  lemma UnusedNumber(files: seq<File>) returns (n: nat)
    ensures forall f :: f in files ==> f.number < n
  {
    if files == [] {
      n := 0;
    } else {
      n := UnusedNumber(files[1..]);
      n := if files[0].number < n then n else files[0].number + 1;
    }
  }

  lemma SortFiles(files: set<File>) returns (level: seq<File>)
    requires forall f, g :: f in files && g in files && f != g ==> BySmallestKey(f, g) || BySmallestKey(g, f)
    ensures SortedLevel(level) && FilesOf(level) == files
  {
    var less := (f: File, g: File) => BySmallestKey(f, g);
    level := SortSet(less, files);
    assert forall i, j :: 0 <= i < j < |level| ==> less(level[i], level[j]);
  }

  /** The merge installed with one output, under a number of its own. */
  lemma InstallOne(v: Version, c: Merge, o: File) returns (w: Version)
    requires WellFormed(v) && InputsThere(v, c) && forall g :: g in v[c.level + 1] ==> g.number < o.number
    ensures Installed(v, c.level, c.in0, c.in1, {o}, w)
  {
    var upper := SortFiles(FilesOf(v[c.level]) - c.in0);
    var lower := SortFiles(FilesOf(v[c.level + 1]) - c.in1 + {o});
    w := v[c.level := upper][c.level + 1 := lower];
  }

  /** And it keeps every answer from its smallest snapshot on exactly if no marker that it drops uncovers
      a value; it stores nothing that was not there. */
  lemma InstallKeepsAnswers(v: Version, c: Merge, outputs: seq<File>, numbers: nat -> nat, w: Version)
    requires DistinctSequences(AllEntries(v)) && InputsThere(v, c) && IsOutcome(v, c, outputs, numbers, w)
    ensures SameAnswers(AllEntries(w), AllEntries(v), c.snapshot) <==> NothingReturns(v, c)
    ensures AllEntries(w) <= AllEntries(v)
  {
    MergeKeepsMeaning(v, c.level, c.in0, c.in1, c.input, c.snapshot, BaseTest(c.base, c.level), outputs, numbers, w);
    StoredBefore(v, c.level, c.in0, c.in1, c.input);
    StoredAfter(v, c.level, c.in0, c.in1, outputs, w);
    KeptIsInput(c);
  }

  /** A merge that still fits is installed without harm. */
  lemma FittingInstall(v: Version, c: Merge, outputs: seq<File>, numbers: nat -> nat, w: Version)
    requires GoodVersion(v) && DistinctSequences(AllEntries(v)) && StillFits(v, c)
      && IsOutcome(v, c, outputs, numbers, w)
    ensures GoodVersion(w) && SameAnswers(AllEntries(w), AllEntries(v), c.snapshot) && AllEntries(w) <= AllEntries(v)
  {
    InstallKeepsVersion(v, c, outputs, numbers, w);
    InstallKeepsAnswers(v, c, outputs, numbers, w);
  }

  /** A merge installed in the version it was picked for keeps age order and answers exactly if it is safe. */
  lemma SafeExactly(c: Merge, outputs: seq<File>, numbers: nat -> nat, w: Version)
    requires GoodVersion(c.base) && DistinctSequences(AllEntries(c.base)) && Started(c)
    requires IsOutcome(c.base, c, outputs, numbers, w)
    ensures WellFormed(w)
    ensures AgeOrdered(w) && SameAnswers(AllEntries(w), AllEntries(c.base), c.snapshot) <==> IsSafe(c)
  {
    StartHasRoom(c);
    InstallKeepsVersion(c.base, c, outputs, numbers, w);
    InstallKeepsAnswers(c.base, c, outputs, numbers, w);
  }

  /** No snapshot that was held at the start is older than an entry of the inputs. */
  ghost predicate NothingNewer(c: Merge) {
    forall e :: e in c.input ==> e.key.sequence <= c.snapshot
  }

  /** Then levels that share no user key stay so, however the outputs are cut. */
  lemma InstallKeepsClean(v: Version, c: Merge, outputs: seq<File>, numbers: nat -> nat, w: Version)
    requires WellFormed(v) && WellFormed(w) && CleanLevels(v) && InputsThere(v, c)
      && KeysAside(v, c.level, c.in1, c.input)
    requires NothingNewer(c) && IsOutcome(v, c, outputs, numbers, w)
    ensures CleanLevels(w)
  {
    OutputsAreValid(outputs, c.input, c.snapshot, BaseTest(c.base, c.level), numbers);
    NoSnapshotNoSharedKey(outputs, c.input, c.snapshot, BaseTest(c.base, c.level), numbers);
    CompactionKeepsClean(v, c.level, c.in0, c.in1, c.input, FilesOf(outputs), w);
  }

  lemma FlushKeepsKeysAside(v: Version, c: Merge, level: nat, f: File, w: Version)
    requires WellFormed(v) && InputsThere(v, c) && KeysAside(v, c.level, c.in1, c.input)
    requires Fits(v, level, f) && Flushed(v, level, f, w)
    ensures KeysAside(w, c.level, c.in1, c.input)
  {
    FileInFlushed(v, level, f, w);
    EntryInRange(f, f.entries[0]);
    forall e | e in c.input && level == c.level + 1
      ensures e.key.user < f.smallest.user || f.largest.user < e.key.user {
      var m, g := InputOf(v, c, e);
      EntryInRange(g, e);
      assert !Overlaps(g, f.smallest.user, f.largest.user);
    }
  }
}
