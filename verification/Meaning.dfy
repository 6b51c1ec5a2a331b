/** What a collection of entries means: for each user key and snapshot, at most one value. */
module Meaning {
  import opened DbFormat

  function EntrySet(entries: seq<Entry>): set<Entry> {
    set e | e in entries
  }

  ghost predicate Candidate(e: Entry, user: UserKey, snapshot: nat) {
    e.key.user == user && e.key.sequence <= snapshot
  }

  /** e is the newest entry of user at or below the snapshot. */
  ghost predicate IsNewest(db: set<Entry>, user: UserKey, snapshot: nat, e: Entry) {
    && e in db && Candidate(e, user, snapshot)
    && forall f :: f in db && Candidate(f, user, snapshot) ==> f.key.sequence <= e.key.sequence
  }

  /** The value a reader at the snapshot sees: that of the newest entry, unless it is a deletion. */
  ghost function Visible(db: set<Entry>, user: UserKey, snapshot: nat): Option<string> {
    if exists e :: IsNewest(db, user, snapshot, e) && e.key.kind.Value? then
      var e :| IsNewest(db, user, snapshot, e) && e.key.kind.Value?; Some(e.value)
    else
      None
  }

  /** Every operation has its own sequence number, so a user key has one entry per number. */
  ghost predicate DistinctSequences(db: set<Entry>) {
    forall e, f :: e in db && f in db && e.key.user == f.key.user && e.key.sequence == f.key.sequence ==> e == f
  }

  function Shown(e: Entry): Option<string> {
    if e.key.kind.Value? then Some(e.value) else None
  }

  lemma VisibleIsNewest(db: set<Entry>, user: UserKey, snapshot: nat, e: Entry)
    requires DistinctSequences(db) && IsNewest(db, user, snapshot, e)
    ensures Visible(db, user, snapshot) == Shown(e)
  {
    forall f | IsNewest(db, user, snapshot, f) ensures f == e {
    }
  }

  /** A non-empty set of candidates has a newest one. */
  lemma {:induction false} NewestExists(db: set<Entry>, user: UserKey, snapshot: nat, c: Entry) returns (e: Entry)
    requires c in db && Candidate(c, user, snapshot)
    ensures IsNewest(db, user, snapshot, e)
    decreases db
  {
    var rest := db - {c};
    if d :| d in rest && Candidate(d, user, snapshot) {
      e := NewestExists(rest, user, snapshot, d);
      if e.key.sequence < c.key.sequence {
        e := c;
      }
    } else {
      e := c;
    }
  }

  /** Two databases agree on a key and snapshot when the newest entry of one is that of the other,
      or when neither shows a value. */
  lemma SameNewest(db1: set<Entry>, db2: set<Entry>, user: UserKey, snapshot: nat, e: Entry)
    requires DistinctSequences(db1) && DistinctSequences(db2)
    requires IsNewest(db1, user, snapshot, e) && IsNewest(db2, user, snapshot, e)
    ensures Visible(db1, user, snapshot) == Visible(db2, user, snapshot)
  {
    VisibleIsNewest(db1, user, snapshot, e);
    VisibleIsNewest(db2, user, snapshot, e);
  }

  lemma NothingVisible(db: set<Entry>, user: UserKey, snapshot: nat)
    requires forall f :: f in db ==> !Candidate(f, user, snapshot)
    ensures Visible(db, user, snapshot) == None
  {
  }

  /** Newer data above older data: the upper part answers first, the lower part only if it has nothing. */
  lemma VisibleOfUnion(upper: set<Entry>, lower: set<Entry>, user: UserKey, snapshot: nat)
    requires DistinctSequences(upper + lower)
    requires forall e, f :: e in upper && f in lower && e.key.user == f.key.user ==> e.key.sequence > f.key.sequence
    ensures Visible(upper + lower, user, snapshot) ==
      if exists e :: e in upper && Candidate(e, user, snapshot) then Visible(upper, user, snapshot)
      else Visible(lower, user, snapshot)
  {
    if c :| c in upper && Candidate(c, user, snapshot) {
      var e := NewestExists(upper, user, snapshot, c);
      assert IsNewest(upper + lower, user, snapshot, e);
      SameNewest(upper, upper + lower, user, snapshot, e);
    } else if c :| c in lower && Candidate(c, user, snapshot) {
      var e := NewestExists(lower, user, snapshot, c);
      assert IsNewest(upper + lower, user, snapshot, e);
      SameNewest(lower, upper + lower, user, snapshot, e);
    } else {
      NothingVisible(lower, user, snapshot);
      NothingVisible(upper + lower, user, snapshot);
    }
  }

  ghost predicate AllNewer(upper: set<Entry>, lower: set<Entry>) {
    forall d, e :: d in upper && e in lower ==> d.key.sequence > e.key.sequence
  }

  /** Newer data on top of two collections that answer alike keeps them alike. */
  lemma SameUnder(upper: set<Entry>, a: set<Entry>, b: set<Entry>, user: UserKey, snapshot: nat)
    requires DistinctSequences(upper + a) && DistinctSequences(upper + b)
    requires AllNewer(upper, a) && AllNewer(upper, b)
    requires Visible(a, user, snapshot) == Visible(b, user, snapshot)
    ensures Visible(upper + a, user, snapshot) == Visible(upper + b, user, snapshot)
  {
    VisibleOfUnion(upper, a, user, snapshot);
    VisibleOfUnion(upper, b, user, snapshot);
  }
}
