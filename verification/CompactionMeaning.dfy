// What a compaction does to a whole version: meaning, disjointness and age order.

module CompactionMeaning {
  import opened DbFormat
  import opened Meaning
  import opened Versions
  import opened DropRule
  import opened CompactionRun

  /** The inputs are files of the level and of the next one. */
  ghost predicate InputsFrom(v: Version, level: nat, in0: set<File>, in1: set<File>) {
    level + 1 < NUM_LEVELS && in0 <= FilesOf(v[level]) && in1 <= FilesOf(v[level + 1])
  }

  /** The inputs of a compaction: files of the level within [low, high], and every file of the next
      level that overlaps this range. */
  ghost predicate InputsIn(v: Version, level: nat, in0: set<File>, in1: set<File>, low: UserKey, high: UserKey) {
    && InputsFrom(v, level, in0, in1)
    && (forall f :: f in in0 ==> low <= f.smallest.user && f.largest.user <= high)
    && forall f :: f in v[level + 1] ==> (f in in1 <==> Overlaps(f, low, high))
  }

  /** At level 0, no other file overlaps the range. */
  ghost predicate ClosedPick(v: Version, level: nat, in0: set<File>, in1: set<File>, low: UserKey, high: UserKey) {
    InputsIn(v, level, in0, in1, low, high)
      && (level == 0 ==> forall f :: f in v[0] && f !in in0 ==> !Overlaps(f, low, high))
  }

  /** The files of the level that stay behind hold nothing older than the inputs, key by key. */
  ghost predicate StayersNewer(v: Version, level: nat, inputs: set<File>)
    requires level < NUM_LEVELS
  {
    forall g, f :: g in v[level] && g !in inputs && f in inputs ==> NewerThan(g, f)
  }

  /** On boundary-clean levels no file that stays behind shares a user key with an input. */
  lemma PickIsSafe(v: Version, level: nat, in0: set<File>, in1: set<File>, low: UserKey, high: UserKey)
    requires WellFormed(v) && CleanLevels(v) && ClosedPick(v, level, in0, in1, low, high)
    ensures StayersNewer(v, level, in0) && StayersNewer(v, level + 1, in1)
  {
    forall g, f, d, e | g in v[level] && g !in in0 && f in in0 && d in g.entries && e in f.entries
      ensures d.key.user != e.key.user {
      assert f in FilesOf(v[level]) && g in FilesOf(v[level]);
      EntryInRange(g, d);
      EntryInRange(f, e);
    }
    forall g, f, d, e | g in v[level + 1] && g !in in1 && f in in1 && d in g.entries && e in f.entries
      ensures d.key.user != e.key.user {
      assert f in FilesOf(v[level + 1]) && g in FilesOf(v[level + 1]);
      EntryInRange(g, d);
      EntryInRange(f, e);
    }
  }

  /** The sorted union of the inputs, as the merging iterator yields it. */
  ghost predicate IsMerge(input: seq<Entry>, files: set<File>) {
    && Sorted(input)
    && (forall e :: e in input ==> exists f :: f in files && e in f.entries)
    && (forall f, e :: f in files && e in f.entries ==> e in input)
  }

  /** The edit of the compaction applied to v: inputs removed, outputs added one level down. */
  ghost predicate Installed(v: Version, level: nat, in0: set<File>, in1: set<File>, outputs: set<File>, w: Version)
    requires level + 1 < NUM_LEVELS
  {
    && (forall l :: 0 <= l < NUM_LEVELS ==> SortedLevel(w[l]))
    && (forall l :: 0 <= l < NUM_LEVELS && l != level && l != level + 1 ==> FilesOf(w[l]) == FilesOf(v[l]))
    && FilesOf(w[level]) == FilesOf(v[level]) - in0
    && FilesOf(w[level + 1]) == FilesOf(v[level + 1]) - in1 + outputs
  }

  /** The entries of the files that take no part in the compaction. */
  ghost function Untouched(v: Version, level: nat, in0: set<File>, in1: set<File>): set<Entry> {
    set l, f, e | 0 <= l < NUM_LEVELS && f in v[l] && !(l == level && f in in0) && !(l == level + 1 && f in in1)
      && e in f.entries :: e
  }

  /** An output of the compaction: a sorted file all of whose entries come from the inputs. */
  ghost predicate OutputsFrom(outputs: set<File>, input: seq<Entry>) {
    && DisjointFiles(outputs)
    && forall o :: o in outputs ==> ValidFile(o) && forall e :: e in o.entries ==> e in input
  }

  /** What lies outside the compaction and is older than a marker that passes the base-level test is
      in a file that stays behind in one of the two levels. */
  lemma OlderStaysBehind(v: Version, level: nat, in0: set<File>, in1: set<File>, low: UserKey, high: UserKey,
                         input: seq<Entry>, d: Entry, e: Entry)
    requires WellFormed(v) && AgeOrdered(v) && InputsIn(v, level, in0, in1, low, high) && IsMerge(input, in0 + in1)
    requires d in Untouched(v, level, in0, in1) && e in input && d.key.user == e.key.user
      && d.key.sequence <= e.key.sequence
    requires IsBase(v, level, e.key.user)
    ensures HasOlder(v, level, in0, d, e) || HasOlder(v, level + 1, in1, d, e)
  {
    var l, g :| 0 <= l < NUM_LEVELS && g in v[l] && !(l == level && g in in0) && !(l == level + 1 && g in in1)
      && d in g.entries;
    var f :| f in in0 + in1 && e in f.entries;
    StaysInPlace(v, level, in0, in1, low, high, if f in in0 then level else level + 1, f, e, l, g, d);
  }

  lemma StaysInPlace(v: Version, level: nat, in0: set<File>, in1: set<File>, low: UserKey, high: UserKey,
                     m: nat, f: File, e: Entry, l: nat, g: File, d: Entry)
    requires WellFormed(v) && AgeOrdered(v) && InputsIn(v, level, in0, in1, low, high)
    requires (m == level && f in in0) || (m == level + 1 && f in in1)
    requires l < NUM_LEVELS && g in v[l] && !(l == level && g in in0) && !(l == level + 1 && g in in1)
    requires d in g.entries && e in f.entries && d.key.user == e.key.user && d.key.sequence <= e.key.sequence
    requires IsBase(v, level, e.key.user)
    ensures l == m
  {
    assert f in v[m];
    EntryInRange(f, e);
    EntryInRange(g, d);
    assert l < m ==> NewerThan(g, f);
  }

  /** d is in a file of the level that stays behind while one with a newer entry e of the key moves. */
  ghost predicate HasOlder(v: Version, level: nat, inputs: set<File>, d: Entry, e: Entry)
    requires level < NUM_LEVELS
  {
    exists g, f :: g in v[level] && g !in inputs && f in inputs && d in g.entries && e in f.entries
  }

  /** A marker is dropped while a file that stays behind in one of the two levels brings the deleted
      value back: what a caller can look for before the merge. */
  ghost predicate MarkerBringsBack(v: Version, level: nat, in0: set<File>, in1: set<File>, input: seq<Entry>,
                                   smallestSnapshot: nat,
                                   i: nat, d: Entry) {
    && level + 1 < NUM_LEVELS
      && BringsBack(Untouched(v, level, in0, in1), input, smallestSnapshot, BaseTest(v, level), i, d)
    && (HasOlder(v, level, in0, d, input[i]) || HasOlder(v, level + 1, in1, d, input[i]))
  }

  /** A merge keeps every answer that can still be asked for, exactly if no marker it drops lets a value
      show that lies outside the merge. */
  lemma MergeKeepsMeaning(v: Version, level: nat, in0: set<File>, in1: set<File>, input: seq<Entry>,
                          smallestSnapshot: nat, isBase: UserKey -> bool, outputs: seq<File>, numbers: nat -> nat,
                            w: Version)
    requires DistinctSequences(AllEntries(v)) && InputsFrom(v, level, in0, in1) && IsMerge(input, in0 + in1)
    requires IsCut(outputs, Kept(input, smallestSnapshot, isBase, |input|), numbers)
    requires Installed(v, level, in0, in1, FilesOf(outputs), w)
    ensures SameAnswers(AllEntries(w), AllEntries(v), smallestSnapshot)
      <==> !exists i: nat, d :: BringsBack(Untouched(v, level, in0, in1), input, smallestSnapshot, isBase, i, d)
  {
    var rest := Untouched(v, level, in0, in1);
    assert AllEntries(v) == rest + EntrySet(input) by {
      StoredBefore(v, level, in0, in1, input);
    }
    assert AllEntries(w) == rest + EntrySet(Kept(input, smallestSnapshot, isBase, |input|)) by {
      StoredAfter(v, level, in0, in1, outputs, w);
    }
    DropsKeepMeaning(rest, input, smallestSnapshot, isBase);
  }

  /** For a pick on the version itself such a value is in a file of the same two levels. */
  lemma ReturnsFromNearby(v: Version, level: nat, in0: set<File>, in1: set<File>, low: UserKey, high: UserKey,
                          input: seq<Entry>, smallestSnapshot: nat, i: nat, d: Entry)
    requires WellFormed(v) && AgeOrdered(v)
    requires InputsIn(v, level, in0, in1, low, high) && IsMerge(input, in0 + in1)
    requires BringsBack(Untouched(v, level, in0, in1), input, smallestSnapshot, BaseTest(v, level), i, d)
    ensures MarkerBringsBack(v, level, in0, in1, input, smallestSnapshot, i, d)
  {
    assert d in Untouched(v, level, in0, in1) + EntrySet(input);
    OlderStaysBehind(v, level, in0, in1, low, high, input, d, input[i]);
  }

  /** A merge installed in the version it was picked for keeps every answer that can still be asked for,
      exactly if no marker it drops lets a value show that a file of the same two levels still holds. */
  lemma CompactionKeepsMeaning(v: Version, level: nat, in0: set<File>, in1: set<File>, low: UserKey, high: UserKey,
                               input: seq<Entry>, smallestSnapshot: nat, outputs: seq<File>, numbers: nat -> nat,
                                 w: Version)
    requires WellFormed(v) && AgeOrdered(v) && DistinctSequences(AllEntries(v))
    requires InputsIn(v, level, in0, in1, low, high) && IsMerge(input, in0 + in1)
    requires IsCut(outputs, Kept(input, smallestSnapshot, BaseTest(v, level), |input|), numbers)
    requires Installed(v, level, in0, in1, FilesOf(outputs), w)
    ensures SameAnswers(AllEntries(w), AllEntries(v), smallestSnapshot)
      <==> !exists i: nat, d :: MarkerBringsBack(v, level, in0, in1, input, smallestSnapshot, i, d)
  {
    MergeKeepsMeaning(v, level, in0, in1, input, smallestSnapshot, BaseTest(v, level), outputs, numbers, w);
    forall i: nat, d | BringsBack(Untouched(v, level, in0, in1), input, smallestSnapshot, BaseTest(v, level), i, d)
      ensures MarkerBringsBack(v, level, in0, in1, input, smallestSnapshot, i, d)
    {
      ReturnsFromNearby(v, level, in0, in1, low, high, input, smallestSnapshot, i, d);
    }
  }

  /** Where the files that stay behind are newer, no marker brings anything back. */
  lemma NewerStayersKeepMeaning(v: Version, level: nat, in0: set<File>, in1: set<File>, input: seq<Entry>,
                                smallestSnapshot: nat)
    requires level + 1 < NUM_LEVELS && StayersNewer(v, level, in0) && StayersNewer(v, level + 1, in1)
    ensures !exists i: nat, d :: MarkerBringsBack(v, level, in0, in1, input, smallestSnapshot, i, d)
  {
    forall i: nat, d | BringsBack(Untouched(v, level, in0, in1), input, smallestSnapshot, BaseTest(v, level), i, d)
      ensures !HasOlder(v, level, in0, d, input[i]) && !HasOlder(v, level + 1, in1, d, input[i])
    {
      assert d in Untouched(v, level, in0, in1) + EntrySet(input);
    }
  }

  lemma StoredBefore(v: Version, level: nat, in0: set<File>, in1: set<File>, input: seq<Entry>)
    requires InputsFrom(v, level, in0, in1) && IsMerge(input, in0 + in1)
    ensures AllEntries(v) == Untouched(v, level, in0, in1) + EntrySet(input)
  {
    forall e | e in input ensures e in AllEntries(v) {
      var f :| f in in0 + in1 && e in f.entries;
      if f in in0 {
        assert f in v[level];
      } else {
        assert f in v[level + 1];
      }
    }
    forall e | e in AllEntries(v) ensures e in Untouched(v, level, in0, in1) || e in input {
      var l, f :| 0 <= l < NUM_LEVELS && f in v[l] && e in f.entries;
      if (l == level && f in in0) || (l == level + 1 && f in in1) {
        assert f in in0 + in1;
      }
    }
  }

  lemma StoredAfter(v: Version, level: nat, in0: set<File>, in1: set<File>, outputs: seq<File>, w: Version)
    requires InputsFrom(v, level, in0, in1) && Installed(v, level, in0, in1, FilesOf(outputs), w)
    ensures AllEntries(w) == Untouched(v, level, in0, in1) + EntrySet(Flatten(outputs))
  {
    FlattenExactly(outputs);
    forall e | e in AllEntries(w) ensures e in Untouched(v, level, in0, in1) || e in Flatten(outputs) {
      var l, f :| 0 <= l < NUM_LEVELS && f in w[l] && e in f.entries;
      assert f in FilesOf(w[l]);
      assert (l == level + 1 && f in outputs) || f in v[l];
    }
    forall e | e in Untouched(v, level, in0, in1) ensures e in AllEntries(w) {
      var l, f :| 0 <= l < NUM_LEVELS && f in v[l] && !(l == level && f in in0) && !(l == level + 1 && f in in1)
        && e in f.entries;
      assert f in FilesOf(v[l]);
      assert f in FilesOf(w[l]);
    }
    forall e | e in Flatten(outputs) ensures e in AllEntries(w) {
      var o :| o in outputs && e in o.entries;
      assert o in FilesOf(w[level + 1]);
    }
  }

  lemma {:induction false} FlattenExactly(files: seq<File>)
    ensures forall e :: e in Flatten(files) <==> exists f :: f in files && e in f.entries
  {
    if files != [] {
      FlattenExactly(files[..|files| - 1]);
      assert files == files[..|files| - 1] + [files[|files| - 1]];
    }
  }

  ghost predicate EntriesBefore(f: File, g: File) {
    forall d, e :: d in f.entries && e in g.entries ==> Before(d.key, e.key)
  }

  lemma SortedConcat(a: seq<Entry>, b: seq<Entry>)
    requires Sorted(a + b)
    ensures Sorted(a) && Sorted(b)
    ensures forall d, e :: d in a && e in b ==> Before(d.key, e.key)
  {
    forall i, j | 0 <= i < j < |a| ensures Before(a[i].key, a[j].key) {
      assert (a + b)[i] == a[i] && (a + b)[j] == a[j];
    }
    forall i, j | 0 <= i < j < |b| ensures Before(b[i].key, b[j].key) {
      assert (a + b)[|a| + i] == b[i] && (a + b)[|a| + j] == b[j];
    }
    forall i, j | 0 <= i < |a| && 0 <= j < |b| ensures Before(a[i].key, b[j].key) {
      assert (a + b)[i] == a[i] && (a + b)[|a| + j] == b[j];
    }
  }

  lemma {:induction false} CutIsSorted(files: seq<File>, i: nat)
    requires Sorted(Flatten(files)) && i < |files|
    ensures Sorted(files[i].entries)
    decreases |files|
  {
    var n := |files| - 1;
    SortedConcat(Flatten(files[..n]), files[n].entries);
    if i < n {
      CutIsSorted(files[..n], i);
    }
  }

  lemma {:induction false} CutInOrder(files: seq<File>, i: nat, j: nat)
    requires Sorted(Flatten(files)) && i < j < |files|
    ensures EntriesBefore(files[i], files[j])
    decreases |files|
  {
    var n := |files| - 1;
    var front := files[..n];
    SortedConcat(Flatten(front), files[n].entries);
    if j < n {
      CutInOrder(front, i, j);
    } else {
      FlattenExactly(front);
      assert front[i] in front;
    }
  }

  /** Cutting a sorted run leaves valid files, in order, that do not overlap. */
  lemma CutOrder(files: seq<File>, numbers: nat -> nat)
    requires Pieces(files, numbers) && Sorted(Flatten(files))
    ensures forall i :: 0 <= i < |files| ==> ValidFile(files[i])
    ensures forall i, j :: 0 <= i < j < |files| ==> EntriesBefore(files[i], files[j])
  {
    forall i | 0 <= i < |files| ensures ValidFile(files[i]) {
      CutIsSorted(files, i);
    }
    forall i, j | 0 <= i < j < |files| ensures EntriesBefore(files[i], files[j]) {
      CutInOrder(files, i, j);
    }
  }

  /** What DoCompactionWork writes are valid files with entries of the input only, and disjoint. */
  lemma OutputsAreValid(outputs: seq<File>, input: seq<Entry>, smallestSnapshot: nat, isBase: UserKey -> bool,
                        numbers: nat -> nat)
    requires Sorted(input) && IsCut(outputs, Kept(input, smallestSnapshot, isBase, |input|), numbers)
    ensures OutputsFrom(FilesOf(outputs), input)
  {
    KeptSorted(input, smallestSnapshot, isBase, |input|);
    CutOrder(outputs, numbers);
    forall o, e | o in outputs && e in o.entries ensures e in input {
      KeptExactly(input, smallestSnapshot, isBase, |input|);
      FlattenExactly(outputs);
      assert e in Flatten(outputs);
    }
    forall f, g | f in FilesOf(outputs) && g in FilesOf(outputs) && f != g
      ensures Before(f.largest, g.smallest) || Before(g.largest, f.smallest)
    {
      var i :| 0 <= i < |outputs| && outputs[i] == f;
      var j :| 0 <= j < |outputs| && outputs[j] == g;
      if i < j {
        RangesInOrder(f, g);
      } else {
        RangesInOrder(g, f);
      }
    }
  }

  lemma RangesInOrder(f: File, g: File)
    requires ValidFile(f) && ValidFile(g) && EntriesBefore(f, g)
    ensures Before(f.largest, g.smallest)
    ensures f.entries[|f.entries| - 1] in f.entries && g.entries[0] in g.entries
  {
  }

  /** A file of the next level that is not an input lies wholly on one side of all inputs. */
  lemma BystanderIsAside(v: Version, level: nat, in0: set<File>, in1: set<File>, low: UserKey, high: UserKey,
                         input: seq<Entry>, g: File, e: Entry)
    requires WellFormed(v) && InputsIn(v, level, in0, in1, low, high) && IsMerge(input, in0 + in1)
    requires g in v[level + 1] && g !in in1 && e in input
    ensures g.largest.user < low ==> Before(g.largest, e.key)
    ensures g.smallest.user > high ==> Before(e.key, g.smallest)
    ensures g.largest.user < low || g.smallest.user > high
  {
    var f :| f in in0 + in1 && e in f.entries;
    var m := if f in in0 then level else level + 1;
    assert f in v[m];
    EntryInRange(f, e);
    EntryInRange(g, g.entries[0]);
    assert !Overlaps(g, low, high);
    if f !in in0 {
      assert Overlaps(f, low, high);
      assert f in FilesOf(v[level + 1]) && g in FilesOf(v[level + 1]);
    }
  }

  /** Applied to the version it was computed from, the edit leaves every level >= 1 a run of
      files that do not overlap, so Builder::MaybeAddFile never trips its assertion. */
  lemma CompactionKeepsLevels(v: Version, level: nat, in0: set<File>, in1: set<File>, low: UserKey, high: UserKey,
                              input: seq<Entry>, outputs: set<File>, w: Version)
    requires WellFormed(v) && InputsIn(v, level, in0, in1, low, high) && IsMerge(input, in0 + in1)
    requires OutputsFrom(outputs, input) && Installed(v, level, in0, in1, outputs, w)
    ensures WellFormed(w)
  {
    forall g, o | g in v[level + 1] && g !in in1 && o in outputs ensures Clear(o, g) {
      OutputIsAside(v, level, in0, in1, low, high, input, g, o);
    }
    AsideOutputsKeepLevels(v, level, in0, in1, input, outputs, w);
  }

  /** The two files do not overlap in internal keys. */
  ghost predicate Clear(o: File, g: File) {
    Before(o.largest, g.smallest) || Before(g.largest, o.smallest)
  }

  lemma AsideOutputsKeepLevels(v: Version, level: nat, in0: set<File>, in1: set<File>, input: seq<Entry>,
                               outputs: set<File>, w: Version)
    requires WellFormed(v) && InputsFrom(v, level, in0, in1)
    requires OutputsFrom(outputs, input) && Installed(v, level, in0, in1, outputs, w)
    requires forall g, o :: g in v[level + 1] && g !in in1 && o in outputs ==> Clear(o, g)
    ensures WellFormed(w)
  {
    forall l, f | 0 <= l < NUM_LEVELS && f in w[l] ensures ValidFile(f) {
      assert f in FilesOf(w[l]);
      assert f in FilesOf(v[l]) || f in outputs;
    }
    forall l | 1 <= l < NUM_LEVELS ensures DisjointFiles(FilesOf(w[l])) {
      if l == level + 1 {
        forall f, g | f in FilesOf(w[l]) && g in FilesOf(w[l]) && f != g
          ensures Before(f.largest, g.smallest) || Before(g.largest, f.smallest)
        {
          assert f !in outputs ==> f in v[l] && f !in in1;
          assert g !in outputs ==> g in v[l] && g !in in1;
          assert f in outputs && g !in outputs ==> Clear(f, g);
          assert f !in outputs && g in outputs ==> Clear(g, f);
        }
      } else {
        assert FilesOf(w[l]) <= FilesOf(v[l]);
      }
    }
  }

  lemma OutputIsAside(v: Version, level: nat, in0: set<File>, in1: set<File>, low: UserKey, high: UserKey,
                      input: seq<Entry>, g: File, o: File)
    requires WellFormed(v) && InputsIn(v, level, in0, in1, low, high) && IsMerge(input, in0 + in1)
    requires g in v[level + 1] && g !in in1
    requires ValidFile(o) && forall e :: e in o.entries ==> e in input
    ensures Clear(o, g)
  {
    assert o.entries[0] in o.entries && o.entries[|o.entries| - 1] in o.entries;
    BystanderIsAside(v, level, in0, in1, low, high, input, g, o.entries[0]);
    BystanderIsAside(v, level, in0, in1, low, high, input, g, o.entries[|o.entries| - 1]);
  }

  /** The files of the level that stay behind hold nothing older than what the merge keeps, key by key. */
  ghost predicate StaysAbove(v: Version, level: nat, in0: set<File>, kept: seq<Entry>)
    requires level < NUM_LEVELS
  {
    forall g, e :: g in v[level] && g !in in0 && e in kept ==> AboveEntry(g, e)
  }

  ghost predicate AboveEntry(g: File, e: Entry) {
    forall d :: d in g.entries && d.key.user == e.key.user ==> d.key.sequence > e.key.sequence
  }

  /** The merge leaves the levels in age order, exactly if no file of the level that stays behind
      holds an older entry of a user key that the merge keeps and takes down. */
  lemma CompactionKeepsAge(v: Version, level: nat, in0: set<File>, in1: set<File>, input: seq<Entry>,
                           smallestSnapshot: nat, isBase: UserKey -> bool, outputs: seq<File>, numbers: nat -> nat,
                             w: Version)
    requires AgeOrdered(v) && InputsFrom(v, level, in0, in1) && IsMerge(input, in0 + in1)
    requires IsCut(outputs, Kept(input, smallestSnapshot, isBase, |input|), numbers)
    requires Installed(v, level, in0, in1, FilesOf(outputs), w)
    ensures AgeOrdered(w) <==> StaysAbove(v, level, in0, Kept(input, smallestSnapshot, isBase, |input|))
  {
    var kept := Kept(input, smallestSnapshot, isBase, |input|);
    OutputsAreValid(outputs, input, smallestSnapshot, isBase, numbers);
    OutputsKeepAge(v, level, in0, in1, input, FilesOf(outputs), w);
    FlattenExactly(outputs);
    if StaysAbove(v, level, in0, kept) {
      AboveOutputs(v, level, in0, kept, outputs);
    } else {
      var g, e :| g in v[level] && g !in in0 && e in kept && !AboveEntry(g, e);
      var o :| o in outputs && e in o.entries;
      assert o in FilesOf(outputs) && !NewerThan(g, o);
    }
  }

  lemma AboveOutputs(v: Version, level: nat, in0: set<File>, kept: seq<Entry>, outputs: seq<File>)
    requires level < NUM_LEVELS && StaysAbove(v, level, in0, kept) && Flatten(outputs) == kept
    ensures forall g, o :: g in v[level] && g !in in0 && o in FilesOf(outputs) ==> NewerThan(g, o)
  {
    FlattenExactly(outputs);
    forall g, o, e | g in v[level] && g !in in0 && o in FilesOf(outputs) && e in o.entries ensures AboveEntry(g, e) {
      assert e in kept;
    }
  }

  lemma OutputsKeepAge(v: Version, level: nat, in0: set<File>, in1: set<File>, input: seq<Entry>, outputs: set<File>,
                       w: Version)
    requires AgeOrdered(v) && InputsFrom(v, level, in0, in1) && IsMerge(input, in0 + in1)
    requires OutputsFrom(outputs, input) && Installed(v, level, in0, in1, outputs, w)
    ensures AgeOrdered(w) <==> forall g, o :: g in v[level] && g !in in0 && o in outputs ==> NewerThan(g, o)
  {
    if forall g, o :: g in v[level] && g !in in0 && o in outputs ==> NewerThan(g, o) {
      forall l, m, f, g | 0 <= l < m < NUM_LEVELS && f in w[l] && g in w[m] ensures NewerThan(f, g) {
        StackInOrder(v, level, in0, in1, input, outputs, w, l, m, f, g);
      }
      assert FilesOf(w[0]) <= FilesOf(v[0]);
      assert forall f :: f in w[0] ==> f in FilesOf(w[0]);
    } else {
      var g, o :| g in v[level] && g !in in0 && o in outputs && !NewerThan(g, o);
      assert g in FilesOf(w[level]) && o in FilesOf(w[level + 1]);
    }
  }

  lemma StackInOrder(v: Version, level: nat, in0: set<File>, in1: set<File>,
                     input: seq<Entry>, outputs: set<File>, w: Version, l: nat, m: nat, f: File, g: File)
    requires InputsFrom(v, level, in0, in1) && IsMerge(input, in0 + in1) && AgeOrdered(v)
    requires OutputsFrom(outputs, input) && Installed(v, level, in0, in1, outputs, w)
    requires forall g, o :: g in v[level] && g !in in0 && o in outputs ==> NewerThan(g, o)
    requires l < m < NUM_LEVELS && f in w[l] && g in w[m]
    ensures NewerThan(f, g)
  {
    assert f in FilesOf(w[l]) && g in FilesOf(w[m]);
    if !(l == level && m == level + 1 && g in outputs) {
      forall d, e | d in f.entries && e in g.entries && d.key.user == e.key.user
        ensures d.key.sequence > e.key.sequence {
        var a, b := Origin(v, level, in0, in1, input, outputs, w, l, f, d),
          Origin(v, level, in0, in1, input, outputs, w, m, g, e);
        assert NewerThan(a.1, b.1);
      }
    }
  }

  lemma NewerStayersAreAbove(v: Version, level: nat, in0: set<File>, in1: set<File>, input: seq<Entry>,
                             kept: seq<Entry>)
    requires InputsFrom(v, level, in0, in1) && IsMerge(input, in0 + in1) && AgeOrdered(v) && StayersNewer(v, level, in0)
    requires forall e :: e in kept ==> e in input
    ensures StaysAbove(v, level, in0, kept)
  {
    forall g, e | g in v[level] && g !in in0 && e in kept ensures AboveEntry(g, e) {
      var f :| f in in0 + in1 && e in f.entries;
      if f in in0 {
        assert NewerThan(g, f);
      } else {
        assert f in FilesOf(v[level + 1]);
        assert NewerThan(g, f);
      }
    }
  }

  /** The file of v, and its level, that an entry of w comes from. */
  ghost function Origin(v: Version, level: nat, in0: set<File>, in1: set<File>, input: seq<Entry>, outputs: set<File>,
                        w: Version, l: nat, f: File, d: Entry): (r: (nat, File))
    requires level + 1 < NUM_LEVELS && in0 <= FilesOf(v[level]) && in1 <= FilesOf(v[level + 1])
      && IsMerge(input, in0 + in1)
    requires OutputsFrom(outputs, input) && Installed(v, level, in0, in1, outputs, w)
    requires l < NUM_LEVELS && f in w[l] && d in f.entries
    ensures r.0 < NUM_LEVELS && r.1 in v[r.0] && d in r.1.entries
    ensures l != level + 1 ==> r == (l, f) && !(l == level && f in in0)
    ensures l == level + 1 ==> r.0 == level + 1 || (r.0 == level && r.1 in in0)
  {
    assert f in FilesOf(w[l]);
    if l == level + 1 && f in outputs then
      var h :| h in in0 + in1 && d in h.entries;
      if h in in0 then (level, h) else (level + 1, h)
    else
      (l, f)
  }

  /** The files of the next level that stay behind hold no user key of the inputs in their range. */
  ghost predicate KeysAside(v: Version, level: nat, in1: set<File>, input: seq<Entry>)
    requires level + 1 < NUM_LEVELS
  {
    forall g, e :: g in v[level + 1] && g !in in1 && e in input ==>
      e.key.user < g.smallest.user || g.largest.user < e.key.user
  }

  /** If the outputs share no user key, boundary-clean levels stay boundary-clean. */
  lemma CompactionKeepsClean(v: Version, level: nat, in0: set<File>, in1: set<File>, input: seq<Entry>,
                             outputs: set<File>, w: Version)
    requires WellFormed(v) && WellFormed(w) && CleanLevels(v) && BoundaryClean(outputs)
    requires InputsFrom(v, level, in0, in1) && KeysAside(v, level, in1, input)
    requires OutputsFrom(outputs, input) && Installed(v, level, in0, in1, outputs, w)
    ensures CleanLevels(w)
  {
    forall l | 1 <= l < NUM_LEVELS ensures BoundaryClean(FilesOf(w[l])) {
      if l == level + 1 {
        forall f, g | f in FilesOf(w[l]) && g in FilesOf(w[l]) && f != g
          ensures f.largest.user < g.smallest.user || g.largest.user < f.smallest.user
        {
          if f in outputs && g !in outputs {
            OutputSharesNoKey(v, level, in1, input, g, f);
          } else if f !in outputs && g in outputs {
            OutputSharesNoKey(v, level, in1, input, f, g);
          }
        }
      } else {
        assert FilesOf(w[l]) <= FilesOf(v[l]);
        assert BoundaryClean(FilesOf(v[l]));
      }
    }
  }

  lemma OutputSharesNoKey(v: Version, level: nat, in1: set<File>, input: seq<Entry>, g: File, o: File)
    requires level + 1 < NUM_LEVELS && KeysAside(v, level, in1, input) && g in v[level + 1] && g !in in1
    requires ValidFile(g) && ValidFile(o) && forall e :: e in o.entries ==> e in input
    requires Before(o.largest, g.smallest) || Before(g.largest, o.smallest)
    ensures o.largest.user < g.smallest.user || g.largest.user < o.smallest.user
  {
    EntryInRange(g, g.entries[0]);
    assert o.entries[0] in o.entries && o.entries[|o.entries| - 1] in o.entries;
  }

  lemma CleanKeysAside(v: Version, level: nat, in0: set<File>, in1: set<File>, low: UserKey, high: UserKey,
                       input: seq<Entry>)
    requires WellFormed(v) && CleanLevels(v) && InputsIn(v, level, in0, in1, low, high) && IsMerge(input, in0 + in1)
    ensures KeysAside(v, level, in1, input)
  {
    forall g, e | g in v[level + 1] && g !in in1 && e in input
      ensures e.key.user < g.smallest.user || g.largest.user < e.key.user {
      var f :| f in in0 + in1 && e in f.entries;
      assert f in v[if f in in0 then level else level + 1];
      EntryInRange(f, e);
      assert !Overlaps(g, low, high);
      if f !in in0 {
        assert f in FilesOf(v[level + 1]) && g in FilesOf(v[level + 1]);
      }
    }
  }

  /** With no snapshot older than the newest entry, a user key keeps at most one entry, so cutting
      the outputs anywhere separates no user key. */
  lemma NoSnapshotNoSharedKey(outputs: seq<File>, input: seq<Entry>, smallestSnapshot: nat, isBase: UserKey -> bool,
                              numbers: nat -> nat)
    requires Sorted(input) && IsCut(outputs, Kept(input, smallestSnapshot, isBase, |input|), numbers)
    requires forall e :: e in input ==> e.key.sequence <= smallestSnapshot
    ensures BoundaryClean(FilesOf(outputs))
  {
    var kept := Kept(input, smallestSnapshot, isBase, |input|);
    assert CutFiles(outputs) by {
      KeptSorted(input, smallestSnapshot, isBase, |input|);
      CutOrder(outputs, numbers);
    }
    forall i, j | 0 <= i < j < |outputs| ensures outputs[i].largest.user < outputs[j].smallest.user {
      KeptOncePerKey(input, smallestSnapshot, isBase);
      KeysInOrder(outputs, kept, outputs[i], outputs[j]);
    }
    OrderedKeysAreClean(outputs);
  }

  lemma OrderedKeysAreClean(files: seq<File>)
    requires forall i, j :: 0 <= i < j < |files| ==> files[i].largest.user < files[j].smallest.user
    ensures BoundaryClean(FilesOf(files))
  {
  }

  ghost predicate CutFiles(files: seq<File>) {
    && (forall i :: 0 <= i < |files| ==> ValidFile(files[i]))
    && (forall i, j :: 0 <= i < j < |files| ==> EntriesBefore(files[i], files[j]))
  }

  lemma KeysInOrder(outputs: seq<File>, kept: seq<Entry>, f: File, g: File)
    requires ValidFile(f) && ValidFile(g) && EntriesBefore(f, g)
    requires f in outputs && g in outputs && Flatten(outputs) == kept
    requires forall d, e :: d in kept && e in kept ==> d.key.user == e.key.user ==> d == e
    ensures f.largest.user < g.smallest.user
  {
    FlattenExactly(outputs);
    var d, e := f.entries[|f.entries| - 1], g.entries[0];
    assert d in f.entries && e in g.entries;
    assert d in kept && e in kept;
  }

  lemma KeptOncePerKey(input: seq<Entry>, smallestSnapshot: nat, isBase: UserKey -> bool)
    requires Sorted(input)
    requires forall e :: e in input ==> e.key.sequence <= smallestSnapshot
    ensures forall d, e :: d in Kept(input, smallestSnapshot, isBase, |input|)
                           && e in Kept(input, smallestSnapshot, isBase, |input|) ==>
      d.key.user == e.key.user ==> d == e
  {
    var kept := Kept(input, smallestSnapshot, isBase, |input|);
    KeptExactly(input, smallestSnapshot, isBase, |input|);
    forall d, e | d in kept && e in kept && d.key.user == e.key.user ensures d == e {
      var i :| 0 <= i < |input| && input[i] == d && !Dropped(input, smallestSnapshot, isBase, i);
      var j :| 0 <= j < |input| && input[j] == e && !Dropped(input, smallestSnapshot, isBase, j);
      if i < j {
        FirstOfKey(input, i, j);
      } else if j < i {
        FirstOfKey(input, j, i);
      }
    }
  }

  lemma FirstOfKey(input: seq<Entry>, i: nat, j: nat)
    requires Sorted(input) && i < j < |input| && input[i].key.user == input[j].key.user
    ensures input[j - 1] in input && input[j - 1].key.user == input[j].key.user
  {
    assert Before(input[j - 1].key, input[j].key);
    assert i == j - 1 || Before(input[i].key, input[j - 1].key);
  }

  /** The file of the level that begins with the user key f ends with, and so with older entries of it. */
  ghost predicate IsBoundaryFile(v: Version, level: nat, f: File, g: File)
    requires level < NUM_LEVELS
  {
    g in v[level] && g != f && g.smallest.user == f.largest.user && Before(f.largest, g.smallest)
  }

  /** A trivial move is the merge whose only input is also its only output: every entry stays, and so
      do sorted, disjoint levels. */
  lemma MoveStores(v: Version, level: nat, f: File, w: Version)
    requires WellFormed(v) && level + 1 < NUM_LEVELS && f in v[level]
    requires InputsIn(v, level, {f}, {}, f.smallest.user, f.largest.user) && Installed(v, level, {f}, {}, {f}, w)
    ensures WellFormed(w) && AllEntries(w) == AllEntries(v)
    ensures IsMerge(f.entries, {f} + {}) && OutputsFrom({f}, f.entries)
  {
    assert IsMerge(f.entries, {f} + {}) by {
      assert ValidFile(f);
      assert f in {f} + {};
    }
    CompactionKeepsLevels(v, level, {f}, {}, f.smallest.user, f.largest.user, f.entries, {f}, w);
    StoredBefore(v, level, {f}, {}, f.entries);
    assert FilesOf([f]) == {f};
    assert [f][..0] == [];
    assert Flatten([f]) == f.entries;
    StoredAfter(v, level, {f}, {}, [f], w);
  }

  /** A trivial move keeps the levels in age order, exactly if it leaves no boundary file behind. */
  lemma TrivialMove(v: Version, level: nat, f: File, w: Version)
    requires WellFormed(v) && AgeOrdered(v) && DistinctSequences(AllEntries(v)) && level + 1 < NUM_LEVELS
      && f in v[level]
    requires ClosedPick(v, level, {f}, {}, f.smallest.user, f.largest.user)
    requires Installed(v, level, {f}, {}, {f}, w)
    ensures WellFormed(w) && AllEntries(w) == AllEntries(v)
    ensures AgeOrdered(w) <==> !exists g :: IsBoundaryFile(v, level, f, g)
    ensures CleanLevels(v) ==> CleanLevels(w) && AgeOrdered(w)
  {
    MoveStores(v, level, f, w);
    OutputsKeepAge(v, level, {f}, {}, f.entries, {f}, w);
    forall g | g in v[level] && g != f ensures NewerThan(g, f) <==> !IsBoundaryFile(v, level, f, g) {
      NewerUnlessBoundary(v, level, f, g);
    }
    if CleanLevels(v) {
      CleanKeysAside(v, level, {f}, {}, f.smallest.user, f.largest.user, f.entries);
      CompactionKeepsClean(v, level, {f}, {}, f.entries, {f}, w);
      forall g | g in v[level] && g != f ensures !IsBoundaryFile(v, level, f, g) {
        CleanHasNoBoundary(v, level, f, g);
      }
    }
  }

  lemma CleanHasNoBoundary(v: Version, level: nat, f: File, g: File)
    requires WellFormed(v) && CleanLevels(v) && level + 1 < NUM_LEVELS && f in v[level] && g in v[level] && g != f
    requires ClosedPick(v, level, {f}, {}, f.smallest.user, f.largest.user)
    ensures !IsBoundaryFile(v, level, f, g)
  {
    assert f in FilesOf(v[level]) && g in FilesOf(v[level]);
    assert ValidFile(f) && ValidFile(g);
    EntryInRange(f, f.entries[0]);
    EntryInRange(g, g.entries[0]);
    assert level > 0 ==> BoundaryClean(FilesOf(v[level]));
  }

  lemma NewerUnlessBoundary(v: Version, level: nat, f: File, g: File)
    requires WellFormed(v) && DistinctSequences(AllEntries(v)) && level + 1 < NUM_LEVELS
    requires f in v[level] && g in v[level] && g != f
    requires ClosedPick(v, level, {f}, {}, f.smallest.user, f.largest.user)
    ensures NewerThan(g, f) <==> !IsBoundaryFile(v, level, f, g)
  {
    assert f in FilesOf(v[level]) && g in FilesOf(v[level]);
    EntryInRange(g, g.entries[0]);
    EntryInRange(f, f.entries[|f.entries| - 1]);
    forall d, e | d in g.entries && e in f.entries && d.key.user == e.key.user && !IsBoundaryFile(v, level, f, g)
      ensures d.key.sequence > e.key.sequence
    {
      EntryInRange(g, d);
      EntryInRange(f, e);
      assert d in AllEntries(v) && e in AllEntries(v);
    }
  }
}
