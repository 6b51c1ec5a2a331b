// Versions: the files of each level, and lookups in them (db/version_set.cc).

/** Files, levels and the invariants a version keeps. */
module Versions {
  import opened DbFormat
  import opened Meaning

  datatype File = File(number: nat, size: nat, smallest: InternalKey, largest: InternalKey, entries: seq<Entry>)

  type Version = v: seq<seq<File>> | |v| == NUM_LEVELS witness seq(NUM_LEVELS, _ => [])

  /** A table file holds a non-empty sorted run; its metadata names the first and last key. */
  ghost predicate ValidFile(f: File) {
    && |f.entries| > 0 && Sorted(f.entries)
    && f.smallest == f.entries[0].key && f.largest == f.entries[|f.entries| - 1].key
  }

  /** VersionSet::Builder::BySmallestKey. */
  predicate BySmallestKey(f: File, g: File) {
    Before(f.smallest, g.smallest) || (f.smallest == g.smallest && f.number < g.number)
  }

  ghost predicate SortedLevel(level: seq<File>) {
    forall i, j :: 0 <= i < j < |level| ==> BySmallestKey(level[i], level[j])
  }

  /** No two files of the level overlap in internal keys. */
  ghost predicate DisjointFiles(files: set<File>) {
    forall f, g :: f in files && g in files && f != g ==> Before(f.largest, g.smallest) || Before(g.largest, f.smallest)
  }

  /** No user key lies in the range of two files. */
  ghost predicate BoundaryClean(files: set<File>) {
    forall f, g :: f in files && g in files && f != g ==>
      f.largest.user < g.smallest.user || g.largest.user < f.smallest.user
  }

  function FilesOf(level: seq<File>): set<File> {
    set f | f in level
  }

  /** Everything f stores is newer, key by key, than everything g stores. */
  ghost predicate NewerThan(f: File, g: File) {
    forall d, e :: d in f.entries && e in g.entries && d.key.user == e.key.user ==> d.key.sequence > e.key.sequence
  }

  /** Levels >= 1 are runs of files that do not overlap. */
  ghost predicate WellFormed(v: Version) {
    && (forall l, f :: 0 <= l < NUM_LEVELS && f in v[l] ==> ValidFile(f))
    && (forall l :: 0 <= l < NUM_LEVELS ==> SortedLevel(v[l]))
    && (forall l :: 1 <= l < NUM_LEVELS ==> DisjointFiles(FilesOf(v[l])))
  }

  /** Newer data is never deeper than older data, and level-0 age follows the file numbers. */
  ghost predicate AgeOrdered(v: Version) {
    (forall l, m, f, g :: 0 <= l < m < NUM_LEVELS && f in v[l] && g in v[m] ==> NewerThan(f, g)) && Level0Aged(v)
  }

  ghost predicate Level0Aged(v: Version) {
    && (forall f, g :: f in v[0] && g in v[0] && f.number > g.number ==> NewerThan(f, g))
    && (forall f, g :: f in v[0] && g in v[0] && f.number == g.number ==> f == g)
  }

  ghost predicate CleanLevels(v: Version) {
    forall l :: 1 <= l < NUM_LEVELS ==> BoundaryClean(FilesOf(v[l]))
  }

  /** Everything stored in the version. */
  ghost function AllEntries(v: Version): set<Entry> {
    set l, f, e | 0 <= l < NUM_LEVELS && f in v[l] && e in f.entries :: e
  }

  ghost function LevelEntries(v: Version, level: nat): set<Entry>
    requires level < NUM_LEVELS
  {
    set f, e | f in v[level] && e in f.entries :: e
  }

  predicate Overlaps(f: File, low: UserKey, high: UserKey) {
    !(f.largest.user < low) && !(f.smallest.user > high)
  }

  /** Every entry of a valid file lies within the range its metadata names. */
  lemma EntryInRange(f: File, e: Entry)
    requires ValidFile(f) && e in f.entries
    ensures f.smallest.user <= e.key.user <= f.largest.user
    ensures e.key == f.smallest || Before(f.smallest, e.key)
    ensures e.key == f.largest || Before(e.key, f.largest)
    ensures f.smallest == f.largest || Before(f.smallest, f.largest)
  {
    var i :| 0 <= i < |f.entries| && f.entries[i] == e;
  }

  /** A sorted level of disjoint files is a sequence of consecutive ranges: the form in which
      the binary search and the level iterators see it. */
  lemma LevelIsARun(level: seq<File>)
    requires forall f :: f in level ==> ValidFile(f)
    requires SortedLevel(level) && DisjointFiles(FilesOf(level))
    ensures forall i, j :: 0 <= i < j < |level| ==> Before(level[i].largest, level[j].smallest)
  {
    forall i, j | 0 <= i < j < |level| ensures Before(level[i].largest, level[j].smallest) {
      var f, g := level[i], level[j];
      assert f in FilesOf(level) && g in FilesOf(level);
      EntryInRange(f, f.entries[0]);
      EntryInRange(g, g.entries[0]);
      assert BySmallestKey(f, g);
    }
  }
}
