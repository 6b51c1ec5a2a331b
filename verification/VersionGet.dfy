/** Point lookups: FindFile, Version::Get and the table search it relies on. */
module VersionGet {
  import opened DbFormat
  import opened Meaning
  import opened Versions

  /** The position of the first entry at or after the key: what a table lookup seeks to. */
  function FirstAtOrAfter(entries: seq<Entry>, key: InternalKey): (r: nat)
    ensures r <= |entries|
    ensures forall j :: 0 <= j < r ==> Before(entries[j].key, key)
    ensures r < |entries| ==> !Before(entries[r].key, key)
  {
    if entries == [] || !Before(entries[0].key, key) then 0 else 1 + FirstAtOrAfter(entries[1..], key)
  }

  /** One search of a sorted run: the entry sought to counts if its user key matches (SaveValue, MemTable::Get). */
  function SavedEntry(entries: seq<Entry>, key: InternalKey): Option<Entry> {
    var i := FirstAtOrAfter(entries, key);
    if i < |entries| && entries[i].key.user == key.user then Some(entries[i]) else None
  }

  ghost predicate NoCandidate(entries: seq<Entry>, user: UserKey, snapshot: SequenceNumber) {
    forall e :: e in entries ==> !Candidate(e, user, snapshot)
  }

  /** One search of a sorted run finds its newest candidate or shows that it has none. */
  lemma SavedEntryIsNewest(entries: seq<Entry>, user: UserKey, snapshot: SequenceNumber)
    requires Sorted(entries)
    ensures match SavedEntry(entries, SeekKey(user, snapshot))
      case Some(e) => IsNewest(EntrySet(entries), user, snapshot, e)
      case None => NoCandidate(entries, user, snapshot)
  {
    var i := FirstAtOrAfter(entries, SeekKey(user, snapshot));
    forall e | e in entries && Candidate(e, user, snapshot)
      ensures i < |entries| && entries[i].key.user == user && e.key.sequence <= entries[i].key.sequence
    {
      var j :| 0 <= j < |entries| && entries[j] == e;
    }
  }

  /** Binary search for the earliest file whose largest key is at or after the key. */
  method FindFile(files: seq<File>, key: InternalKey) returns (right: nat)
    requires forall i, j :: 0 <= i < j < |files| ==> Before(files[i].largest, files[j].largest)
    ensures right <= |files|
    ensures forall j :: 0 <= j < right ==> Before(files[j].largest, key)
    ensures forall j :: right <= j < |files| ==> !Before(files[j].largest, key)
  {
    var left := 0;
    right := |files|;
    while left < right
      invariant 0 <= left <= right <= |files|
      invariant forall j :: 0 <= j < left ==> Before(files[j].largest, key)
      invariant forall j :: right <= j < |files| ==> !Before(files[j].largest, key)
    {
      var mid := (left + right) / 2;
      if Before(files[mid].largest, key) {
        left := mid + 1;
      } else {
        right := mid;
      }
    }
  }

  ghost predicate NewestFirst(files: seq<File>) {
    forall i, j :: 0 <= i < j < |files| ==> files[i].number >= files[j].number
  }

  /** std::sort with the comparison NewestFirst. */
  function SortNewestFirst(files: seq<File>): (r: seq<File>)
    ensures NewestFirst(r)
    ensures forall f :: f in r <==> f in files
  {
    if files == [] then [] else InsertNewestFirst(files[0], SortNewestFirst(files[1..]))
  }

  function InsertNewestFirst(f: File, files: seq<File>): (r: seq<File>)
    requires NewestFirst(files)
    ensures NewestFirst(r)
    ensures forall g :: g in r <==> g == f || g in files
  {
    if files == [] || f.number >= files[0].number then
      [f] + files
    else
      var rest := InsertNewestFirst(f, files[1..]);
      assert forall g :: g in rest ==> files[0].number >= g.number;
      [files[0]] + rest
  }

  ghost predicate NoCandidateAbove(v: Version, level: int, user: UserKey, snapshot: SequenceNumber) {
    forall l, f :: 0 <= l < level && l < NUM_LEVELS && f in v[l] ==> NoCandidate(f.entries, user, snapshot)
  }

  /** The files of one level that Get searches, in order. */
  method FilesToSearch(v: Version, level: nat, user: UserKey, snapshot: SequenceNumber) returns (files: seq<File>)
    requires WellFormed(v) && level < NUM_LEVELS
    ensures forall f :: f in files ==> f in v[level]
    ensures forall f :: f in v[level] && f !in files && !(level > 0 && files != []) ==>
      NoCandidate(f.entries, user, snapshot)
    ensures level == 0 ==> NewestFirst(files)
    ensures level > 0 && files != [] ==> |files| == 1 && OneFileIsEnough(v[level], files[0], user, snapshot)
  {
    files := [];
    if level == 0 {
      for i := 0 to |v[0]|
        invariant forall f :: f in files ==> f in v[0]
        invariant forall j :: 0 <= j < i && v[0][j] !in files ==> NoCandidate(v[0][j].entries, user, snapshot)
      {
        var f := v[0][i];
        if user >= f.smallest.user && user <= f.largest.user {
          files := files + [f];
        } else {
          forall e | e in f.entries ensures !Candidate(e, user, snapshot) {
            EntryInRange(f, e);
          }
        }
      }
      ghost var found := files;
      files := SortNewestFirst(files);
      forall f | f in v[0] && f !in files ensures NoCandidate(f.entries, user, snapshot) {
        assert f !in found;
      }
    } else {
      LevelIsARun(v[level]);
      forall i, j | 0 <= i < j < |v[level]| ensures Before(v[level][i].largest, v[level][j].largest) {
        assert ValidFile(v[level][j]);
        EntryInRange(v[level][j], v[level][j].entries[0]);
      }
      var index := FindFile(v[level], SeekKey(user, snapshot));
      FilesAroundIndex(v[level], index, user, snapshot);
      if index < |v[level]| && !(user < v[level][index].smallest.user) {
        files := [v[level][index]];
      }
    }
  }

  /** Whatever the level has for the key at the snapshot, the newest of it is in file f. */
  ghost predicate OneFileIsEnough(level: seq<File>, f: File, user: UserKey, snapshot: SequenceNumber) {
    match SavedEntry(f.entries, SeekKey(user, snapshot))
    case Some(e) => forall g, d :: g in level && d in g.entries && Candidate(d, user, snapshot) ==>
      d.key.sequence <= e.key.sequence
    case None => forall g :: g in level ==> NoCandidate(g.entries, user, snapshot)
  }

  /** One file per level is enough, even when a user key spans two files of the level. */
  lemma FilesAroundIndex(level: seq<File>, index: nat, user: UserKey, snapshot: SequenceNumber)
    requires forall f :: f in level ==> ValidFile(f)
    requires forall i, j :: 0 <= i < j < |level| ==> Before(level[i].largest, level[j].smallest)
    requires index <= |level|
    requires forall j :: 0 <= j < index ==> Before(level[j].largest, SeekKey(user, snapshot))
    requires forall j :: index <= j < |level| ==> !Before(level[j].largest, SeekKey(user, snapshot))
    ensures if index < |level| && !(user < level[index].smallest.user)
      then OneFileIsEnough(level, level[index], user, snapshot)
      else forall g :: g in level ==> NoCandidate(g.entries, user, snapshot)
  {
    if index < |level| {
      assert ValidFile(level[index]);
      SavedEntryIsNewest(level[index].entries, user, snapshot);
      EntryInRange(level[index], level[index].entries[|level[index].entries| - 1]);
    }
    forall g, d | g in level && d in g.entries && Candidate(d, user, snapshot)
      ensures index < |level| && !(user < level[index].smallest.user)
      ensures SavedEntry(level[index].entries, SeekKey(user, snapshot)).Some?
      ensures d.key.sequence <= SavedEntry(level[index].entries, SeekKey(user, snapshot)).value.key.sequence
    {
      var j :| 0 <= j < |level| && level[j] == g;
      EntryInRange(g, d);
      if j < index {
        assert false;
      } else if index < j {
        assert Before(level[index].largest, g.smallest);
        var last := level[index].entries[|level[index].entries| - 1];
        assert last in level[index].entries;
        assert Candidate(last, user, snapshot);
      }
    }
  }

  /** What a search level by level comes to: the first level that has anything for the key decides. */
  ghost function FoundByLevel(v: Version, user: UserKey, snapshot: SequenceNumber, level: nat): Option<string>
    requires level <= NUM_LEVELS
    decreases NUM_LEVELS - level
  {
    if level == NUM_LEVELS then None
    else if exists e :: e in LevelEntries(v, level)
                        && Candidate(e, user, snapshot) then Visible(LevelEntries(v, level), user, snapshot)
    else FoundByLevel(v, user, snapshot, level + 1)
  }

  /** Version::Get stops at the first hit and opens at most one file per level below level 0. In age order
      that finds the newest entry at or below the snapshot over all files. */
  method Get(v: Version, user: UserKey, snapshot: SequenceNumber) returns (value: Option<string>)
    requires WellFormed(v) && Level0Aged(v) && DistinctSequences(AllEntries(v))
    ensures value == FoundByLevel(v, user, snapshot, 0)
    ensures AgeOrdered(v) ==> value == Visible(AllEntries(v), user, snapshot)
  {
    if AgeOrdered(v) {
      FoundIsVisible(v, user, snapshot, 0);
    }
    for level := 0 to NUM_LEVELS
      invariant FoundByLevel(v, user, snapshot, 0) == FoundByLevel(v, user, snapshot, level)
    {
      var hit := SearchLevel(v, level, user, snapshot);
      if hit.Some? {
        LevelIsDistinct(v, level);
        VisibleIsNewest(LevelEntries(v, level), user, snapshot, hit.value);
        value := if hit.value.key.kind.Value? then Some(hit.value.value) else None;
        return;
      }
    }
    value := None;
  }

  lemma LevelIsDistinct(v: Version, level: nat)
    requires DistinctSequences(AllEntries(v)) && level < NUM_LEVELS
    ensures DistinctSequences(LevelEntries(v, level))
  {
    assert LevelEntries(v, level) <= AllEntries(v);
  }

  method SearchLevel(v: Version, level: nat, user: UserKey, snapshot: SequenceNumber) returns (hit: Option<Entry>)
    requires WellFormed(v) && Level0Aged(v) && level < NUM_LEVELS
    ensures hit.Some? ==> IsNewest(LevelEntries(v, level), user, snapshot, hit.value)
    ensures hit.None? ==> forall e :: e in LevelEntries(v, level) ==> !Candidate(e, user, snapshot)
  {
    var files := FilesToSearch(v, level, user, snapshot);
    for i := 0 to |files|
      invariant forall j :: 0 <= j < i ==> SavedEntry(files[j].entries, SeekKey(user, snapshot)) == None
    {
      hit := SavedEntry(files[i].entries, SeekKey(user, snapshot));
      if hit.Some? {
        HitIsNewest(v, level, files, i, user, snapshot);
        return;
      }
    }
    hit := None;
    forall f, e | f in v[level] && e in f.entries ensures !Candidate(e, user, snapshot) {
      if f in files {
        assert ValidFile(f);
        SavedEntryIsNewest(f.entries, user, snapshot);
      }
      assert NoCandidate(f.entries, user, snapshot);
    }
  }

  /** The first hit is the newest candidate of the whole level. */
  lemma HitIsNewest(v: Version, level: nat, files: seq<File>, i: nat, user: UserKey, snapshot: SequenceNumber)
    requires WellFormed(v) && Level0Aged(v) && level < NUM_LEVELS && i < |files|
    requires forall f :: f in files ==> f in v[level]
    requires forall f :: f in v[level] && f !in files && !(level > 0 && files != []) ==>
      NoCandidate(f.entries, user, snapshot)
    requires level == 0 ==> NewestFirst(files)
    requires level > 0 ==> |files| == 1 && OneFileIsEnough(v[level], files[0], user, snapshot)
    requires forall j :: 0 <= j < i ==> SavedEntry(files[j].entries, SeekKey(user, snapshot)) == None
    requires SavedEntry(files[i].entries, SeekKey(user, snapshot)).Some?
    ensures IsNewest(LevelEntries(v, level), user, snapshot,
                     SavedEntry(files[i].entries, SeekKey(user, snapshot)).value)
  {
    var f := files[i];
    var e := SavedEntry(f.entries, SeekKey(user, snapshot)).value;
    assert ValidFile(f);
    SavedEntryIsNewest(f.entries, user, snapshot);
    forall g, d | g in v[level] && d in g.entries && Candidate(d, user, snapshot)
      ensures d.key.sequence <= e.key.sequence {
      if level > 0 {
        assert OneFileIsEnough(v[level], f, user, snapshot);
      } else if g != f {
        assert g in files;
        var j :| 0 <= j < |files| && files[j] == g;
        if j < i {
          assert ValidFile(g);
          SavedEntryIsNewest(g.entries, user, snapshot);
        } else {
          assert f.number != g.number;
          assert NewerThan(f, g);
        }
      }
    }
  }

  lemma FoundIsVisible(v: Version, user: UserKey, snapshot: SequenceNumber, level: nat)
    requires AgeOrdered(v) && DistinctSequences(AllEntries(v)) && level <= NUM_LEVELS
      && NoCandidateAbove(v, level, user, snapshot)
    ensures FoundByLevel(v, user, snapshot, level) == Visible(AllEntries(v), user, snapshot)
    decreases NUM_LEVELS - level
  {
    if level == NUM_LEVELS {
      forall e | e in AllEntries(v) ensures !Candidate(e, user, snapshot) {
        var l, f :| 0 <= l < NUM_LEVELS && f in v[l] && e in f.entries;
        assert NoCandidate(f.entries, user, snapshot);
      }
      NothingVisible(AllEntries(v), user, snapshot);
    } else if c :| c in LevelEntries(v, level) && Candidate(c, user, snapshot) {
      var e := NewestExists(LevelEntries(v, level), user, snapshot, c);
      NewestOfLevel(v, user, snapshot, level, e);
      LevelIsDistinct(v, level);
      SameNewest(LevelEntries(v, level), AllEntries(v), user, snapshot, e);
    } else {
      forall f | f in v[level] ensures NoCandidate(f.entries, user, snapshot) {
        assert forall e :: e in f.entries ==> e in LevelEntries(v, level);
      }
      FoundIsVisible(v, user, snapshot, level + 1);
    }
  }

  lemma NewestOfLevel(v: Version, user: UserKey, snapshot: SequenceNumber, level: nat, e: Entry)
    requires AgeOrdered(v) && level < NUM_LEVELS && NoCandidateAbove(v, level, user, snapshot)
    requires IsNewest(LevelEntries(v, level), user, snapshot, e)
    ensures IsNewest(AllEntries(v), user, snapshot, e)
  {
    var f :| f in v[level] && e in f.entries;
    forall d | d in AllEntries(v) && Candidate(d, user, snapshot) ensures d.key.sequence <= e.key.sequence {
      var l, g :| 0 <= l < NUM_LEVELS && g in v[l] && d in g.entries;
      assert l < level ==> NoCandidate(g.entries, user, snapshot);
      assert l > level ==> NewerThan(f, g);
      assert l == level ==> d in LevelEntries(v, level);
    }
  }
}
