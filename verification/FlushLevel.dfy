// Where a flushed memtable goes (db/version_set.cc, db/db_impl.cc).

module FlushLevel {
  import opened DbFormat
  import opened Meaning
  import opened Versions
  import opened VersionGet
  import opened OverlappingInputs
  import opened PickCompaction

  predicate AfterFile(userKey: Option<UserKey>, f: File) {
    userKey.Some? && userKey.value > f.largest.user
  }

  predicate BeforeFile(userKey: Option<UserKey>, f: File) {
    userKey.Some? && userKey.value < f.smallest.user
  }

  /** Linear over overlapping files, by binary search over a run of disjoint ones. */
  method SomeFileOverlapsRange(disjointSortedFiles: bool, files: seq<File>, smallest: Option<UserKey>,
                               largest: Option<UserKey>)
    returns (overlap: bool)
    requires disjointSortedFiles ==> SortedLevel(files) && DisjointFiles(FilesOf(files))
    requires forall f :: f in files ==> ValidFile(f)
    ensures overlap <==> MeetsSome(files, Range(smallest, largest))
  {
    if !disjointSortedFiles {
      for i := 0 to |files|
        invariant forall j :: 0 <= j < i ==> !Meets(files[j], Range(smallest, largest))
      {
        if AfterFile(smallest, files[i]) || BeforeFile(largest, files[i]) {
          // no overlap
        } else {
          assert Meets(files[i], Range(smallest, largest));
          return true;
        }
      }
      return false;
    }
    LevelIsARun(files);
    forall i, j | 0 <= i < j < |files| ensures Before(files[i].largest, files[j].largest) {
      assert ValidFile(files[j]);
      EntryInRange(files[j], files[j].entries[0]);
    }
    var index := 0;
    if smallest.Some? {
      index := FindFile(files, SeekKey(smallest.value, MAX_SEQUENCE_NUMBER));
    }
    FirstDecides(files, index, Range(smallest, largest));
    if index >= |files| {
      return false;
    }
    overlap := !BeforeFile(largest, files[index]);
  }

  /** Only the first file that does not end before the range can be the first to meet it. */
  lemma FirstDecides(files: seq<File>, index: nat, r: Range)
    requires SortedLevel(files) && index <= |files|
    requires r.low.None? ==> index == 0
    requires r.low.Some? ==> forall j :: 0 <= j < index ==>
      Before(files[j].largest, SeekKey(r.low.value, MAX_SEQUENCE_NUMBER))
    requires r.low.Some? ==> forall j :: index <= j < |files| ==>
      !Before(files[j].largest, SeekKey(r.low.value, MAX_SEQUENCE_NUMBER))
    ensures (exists f :: f in files && Meets(f, r)) <==> index < |files| && !BeforeFile(r.high, files[index])
  {
    if index < |files| {
      if !BeforeFile(r.high, files[index]) {
        assert files[index] in files && Meets(files[index], r);
      }
      forall j | index < j < |files| ensures files[index].smallest.user <= files[j].smallest.user {
        assert BySmallestKey(files[index], files[j]);
      }
    }
  }

  ghost predicate MeetsSome(files: seq<File>, range: Range) {
    exists f :: f in files && Meets(f, range)
  }

  /** The file may not go below this level: it would overlap the next one, or too many bytes of the
      one after that. */
  ghost predicate StopsAt(v: Version, level: nat, smallest: UserKey, largest: UserKey, maxFileSize: nat)
    requires level < MAX_MEM_COMPACT_LEVEL
  {
    || MeetsSome(v[level + 1], Range(Some(smallest), Some(largest)))
    || TotalFileSize(FilesMeeting(v[level + 2], Range(Some(smallest), Some(largest)))) > 10 * maxFileSize
  }

  method MeetsMuch(v: Version, level: nat, smallest: UserKey, largest: UserKey, maxFileSize: nat) returns (much: bool)
    requires WellFormed(v) && 0 < level < NUM_LEVELS && smallest <= largest
    ensures much <==> TotalFileSize(FilesMeeting(v[level], Range(Some(smallest), Some(largest)))) > 10 * maxFileSize
  {
    var overlaps, _ := GetOverlappingInputs(v, level, Range(Some(smallest), Some(largest)));
    much := TotalFileSize(overlaps) > 10 * maxFileSize;
  }

  method MeetsNext(v: Version, level: nat, smallest: UserKey, largest: UserKey) returns (meets: bool)
    requires WellFormed(v) && 0 < level < NUM_LEVELS
    ensures meets <==> MeetsSome(v[level], Range(Some(smallest), Some(largest)))
  {
    meets := SomeFileOverlapsRange(true, v[level], Some(smallest), Some(largest));
  }

  /** The checks of one turn of the loop. */
  method MustStop(v: Version, level: nat, smallest: UserKey, largest: UserKey, maxFileSize: nat) returns (stop: bool)
    requires WellFormed(v) && level < MAX_MEM_COMPACT_LEVEL && smallest <= largest
    ensures stop <==> StopsAt(v, level, smallest, largest, maxFileSize)
  {
    stop := MeetsNext(v, level + 1, smallest, largest);
    if !stop && level + 2 < NUM_LEVELS {
      stop := MeetsMuch(v, level + 2, smallest, largest, maxFileSize);
    }
  }

  lemma NoneMeets(files: seq<File>, smallest: UserKey, largest: UserKey)
    requires !MeetsSome(files, Range(Some(smallest), Some(largest)))
    ensures forall f :: f in files ==> !Overlaps(f, smallest, largest)
  {
    forall f | f in files ensures !Overlaps(f, smallest, largest) {
      assert !Meets(f, Range(Some(smallest), Some(largest)));
    }
  }

  /** No file down to this level overlaps the range. */
  ghost predicate ClearDownTo(v: Version, level: nat, smallest: UserKey, largest: UserKey)
    requires level < NUM_LEVELS
  {
    forall l, f :: 0 <= l <= level && f in v[l] ==> !Overlaps(f, smallest, largest)
  }

  /** The level for a flushed file: below 0 only past levels it does not overlap, and no further than
      the first level it must stop at. */
  ghost predicate IsPickedLevel(v: Version, smallest: UserKey, largest: UserKey, maxFileSize: nat, level: nat) {
    && level <= MAX_MEM_COMPACT_LEVEL
    && (level > 0 ==> ClearDownTo(v, level, smallest, largest))
    && (forall l :: 0 <= l < level ==> !StopsAt(v, l, smallest, largest, maxFileSize))
    && (level == MAX_MEM_COMPACT_LEVEL || StopsAt(v, level, smallest, largest, maxFileSize)
      || (level == 0 && MeetsSome(v[0], Range(Some(smallest), Some(largest)))))
  }

  method PickLevelForMemTableOutput(v: Version, smallest: UserKey, largest: UserKey, maxFileSize: nat)
    returns (level: nat)
    requires WellFormed(v) && smallest <= largest
    ensures IsPickedLevel(v, smallest, largest, maxFileSize, level)
  {
    level := 0;
    var overlap := SomeFileOverlapsRange(false, v[0], Some(smallest), Some(largest));
    if !overlap {
      while level < MAX_MEM_COMPACT_LEVEL
        invariant level <= MAX_MEM_COMPACT_LEVEL
        invariant forall l, f :: 0 <= l <= level && f in v[l] ==> !Overlaps(f, smallest, largest)
        invariant forall l :: 0 <= l < level ==> !StopsAt(v, l, smallest, largest, maxFileSize)
      {
        var stop := MustStop(v, level, smallest, largest, maxFileSize);
        if stop {
          break;
        }
        NoneMeets(v[level + 1], smallest, largest);
        level := level + 1;
      }
    }
  }

  ghost predicate Flushed(v: Version, level: nat, f: File, w: Version)
    requires level < NUM_LEVELS
  {
    && (forall l :: 0 <= l < NUM_LEVELS ==> SortedLevel(w[l]))
    && (forall l :: 0 <= l < NUM_LEVELS && l != level ==> FilesOf(w[l]) == FilesOf(v[l]))
    && FilesOf(w[level]) == FilesOf(v[level]) + {f}
  }

  /** A memtable newer than the whole version, flushed to the level picked for it, keeps levels
      disjoint, in age order and boundary-clean. */
  lemma FlushKeepsInvariants(v: Version, level: nat, f: File, w: Version)
    requires WellFormed(v) && AgeOrdered(v) && ValidFile(f)
    requires level <= MAX_MEM_COMPACT_LEVEL && Flushed(v, level, f, w)
    requires level > 0 ==> ClearDownTo(v, level, f.smallest.user, f.largest.user)
    requires forall l, g :: 0 <= l < NUM_LEVELS && g in v[l] ==> NewerThan(f, g)
    requires forall g :: g in v[0] ==> g.number < f.number
    ensures WellFormed(w) && AgeOrdered(w)
    ensures CleanLevels(v) ==> CleanLevels(w)
  {
    FileInFlushed(v, level, f, w);
    forall l | 1 <= l < NUM_LEVELS ensures DisjointFiles(FilesOf(w[l])) {
      NewFileIsApart(v, level, f, w, l);
    }
    forall l, m, g, h | 0 <= l < m < NUM_LEVELS && g in w[l] && h in w[m] ensures NewerThan(g, h) {
      if h == f && h !in v[m] {
        ApartSharesNoKey(g, f);
      }
    }
    if CleanLevels(v) {
      forall l | 1 <= l < NUM_LEVELS ensures BoundaryClean(FilesOf(w[l])) {
        NewFileIsApart(v, level, f, w, l);
      }
    }
  }

  lemma NewFileIsApart(v: Version, level: nat, f: File, w: Version, l: nat)
    requires WellFormed(v) && ValidFile(f) && level < NUM_LEVELS && Flushed(v, level, f, w) && 1 <= l < NUM_LEVELS
    requires l == level ==> forall g :: g in v[l] ==> !Overlaps(g, f.smallest.user, f.largest.user)
    ensures DisjointFiles(FilesOf(w[l]))
    ensures BoundaryClean(FilesOf(v[l])) ==> BoundaryClean(FilesOf(w[l]))
  {
    if l == level {
      forall g | g in FilesOf(v[l]) ensures g.largest.user < f.smallest.user || f.largest.user < g.smallest.user {
        assert g in v[l];
      }
    } else {
      assert FilesOf(w[l]) == FilesOf(v[l]);
    }
  }

  lemma FileInFlushed(v: Version, level: nat, f: File, w: Version)
    requires level < NUM_LEVELS && Flushed(v, level, f, w)
    ensures forall l, g :: 0 <= l < NUM_LEVELS && g in w[l] ==> g in v[l] || (l == level && g == f)
    ensures AllEntries(w) == AllEntries(v) + EntrySet(f.entries)
  {
    forall l, g | 0 <= l < NUM_LEVELS && g in w[l] ensures g in v[l] || (l == level && g == f) {
      assert g in FilesOf(w[l]);
    }
    forall e | e in AllEntries(v) || e in f.entries ensures e in AllEntries(w) {
      if e in f.entries {
        assert f in FilesOf(w[level]);
      } else {
        var l, g :| 0 <= l < NUM_LEVELS && g in v[l] && e in g.entries;
        assert g in FilesOf(v[l]);
        assert g in FilesOf(w[l]);
      }
    }
  }

  lemma ApartSharesNoKey(g: File, f: File)
    requires ValidFile(f) && ValidFile(g)
    requires !Overlaps(g, f.smallest.user, f.largest.user)
    ensures forall d, e :: d in g.entries && e in f.entries ==> d.key.user != e.key.user
  {
    forall d, e | d in g.entries && e in f.entries ensures d.key.user != e.key.user {
      EntryInRange(g, d);
      EntryInRange(f, e);
    }
  }
}
