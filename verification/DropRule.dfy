// Merging compaction: the drop rule and its loop (db/db_impl.cc), and the per-compaction
// state of db/version_set.cc.

/** Which entries of a compaction's sorted input are kept. */
module DropRule {
  import opened DbFormat
  import opened Meaning

  /** Rule (A): a newer entry of the same user key is already visible to every snapshot. */
  predicate Hidden(input: seq<Entry>, smallestSnapshot: nat, i: nat)
    requires i < |input|
  {
    i > 0 && input[i - 1].key.user == input[i].key.user && input[i - 1].key.sequence <= smallestSnapshot
  }

  predicate Dropped(input: seq<Entry>, smallestSnapshot: nat, isBase: UserKey -> bool, i: nat)
    requires i < |input|
  {
    || Hidden(input, smallestSnapshot, i)
    || (input[i].key.kind.Deletion? && input[i].key.sequence <= smallestSnapshot && isBase(input[i].key.user))
  }

  /** The entries kept among the first n. */
  function Kept(input: seq<Entry>, smallestSnapshot: nat, isBase: UserKey -> bool, n: nat): seq<Entry>
    requires n <= |input|
  {
    if n == 0 then []
    else
      var earlier := Kept(input, smallestSnapshot, isBase, n - 1);
      if Dropped(input, smallestSnapshot, isBase, n - 1) then earlier else earlier + [input[n - 1]]
  }

  lemma {:induction false} KeptExactly(input: seq<Entry>, smallestSnapshot: nat, isBase: UserKey -> bool, n: nat)
    requires n <= |input|
    ensures forall e :: e in Kept(input, smallestSnapshot, isBase, n) <==>
      exists i :: 0 <= i < n && input[i] == e && !Dropped(input, smallestSnapshot, isBase, i)
  {
    if n > 0 {
      KeptExactly(input, smallestSnapshot, isBase, n - 1);
      var earlier := Kept(input, smallestSnapshot, isBase, n - 1);
      forall e
        ensures e in Kept(input, smallestSnapshot, isBase, n) <==>
          exists i :: 0 <= i < n && input[i] == e && !Dropped(input, smallestSnapshot, isBase, i)
      {
        if e in Kept(input, smallestSnapshot, isBase, n) && e !in earlier {
          assert input[n - 1] == e && !Dropped(input, smallestSnapshot, isBase, n - 1);
        }
      }
    }
  }

  lemma {:induction false} KeptSorted(input: seq<Entry>, smallestSnapshot: nat, isBase: UserKey -> bool, n: nat)
    requires n <= |input| && Sorted(input)
    ensures Sorted(Kept(input, smallestSnapshot, isBase, n))
  {
    if n > 0 {
      KeptSorted(input, smallestSnapshot, isBase, n - 1);
      KeptExactly(input, smallestSnapshot, isBase, n - 1);
      var earlier := Kept(input, smallestSnapshot, isBase, n - 1);
      forall i | 0 <= i < |earlier| ensures Before(earlier[i].key, input[n - 1].key) {
        assert earlier[i] in earlier;
      }
    }
  }

  /** Entries of one user key are adjacent and ordered newest first. */
  lemma NewerNeighbour(input: seq<Entry>, i: nat, j: nat)
    requires i < j < |input| && Sorted(input)
    requires input[i].key.user == input[j].key.user
    requires DistinctSequences(EntrySet(input))
    ensures input[j - 1].key.user == input[j].key.user
    ensures input[i].key.sequence >= input[j - 1].key.sequence > input[j].key.sequence
  {
    assert input[i] in input && input[j] in input && input[j - 1] in input;
    assert Before(input[j - 1].key, input[j].key);
    assert i == j - 1 || Before(input[i].key, input[j - 1].key);
  }

  /** A dropped marker brings d back: it is the newest entry of its user key for the oldest snapshot,
      the base-level test lets it go, and outside the compaction d is the newest, and a value. */
  ghost predicate BringsBack(rest: set<Entry>, input: seq<Entry>, smallestSnapshot: nat, isBase: UserKey -> bool,
                             i: nat, d: Entry) {
    && i < |input| && input[i].key.kind.Deletion? && isBase(input[i].key.user)
    && IsNewest(rest + EntrySet(input), input[i].key.user, smallestSnapshot, input[i])
    && IsNewest(rest, input[i].key.user, smallestSnapshot, d) && d.key.kind.Value?
  }

  /** Every answer that can still be asked for stays the same. */
  ghost predicate SameAnswers(a: set<Entry>, b: set<Entry>, smallestSnapshot: nat) {
    forall user, snapshot: nat :: smallestSnapshot <= snapshot ==>
      Visible(a, user, snapshot) == Visible(b, user, snapshot)
  }

  /** Dropping changes no answer at a snapshot a reader may still hold, exactly if no dropped marker
      brings an entry back that lies outside the compaction. */
  lemma DropsKeepMeaning(rest: set<Entry>, input: seq<Entry>, smallestSnapshot: nat, isBase: UserKey -> bool)
    requires Sorted(input) && DistinctSequences(rest + EntrySet(input))
    ensures SameAnswers(rest + EntrySet(Kept(input, smallestSnapshot, isBase, |input|)), rest + EntrySet(input),
                        smallestSnapshot)
      <==> !exists i: nat, d :: BringsBack(rest, input, smallestSnapshot, isBase, i, d)
  {
    var before, after := rest + EntrySet(input), rest + EntrySet(Kept(input, smallestSnapshot, isBase, |input|));
    if i: nat, d :| BringsBack(rest, input, smallestSnapshot, isBase, i, d) {
      var user := input[i].key.user;
      VisibleIsNewest(before, user, smallestSnapshot, input[i]);
      MarkerGone(rest, input, smallestSnapshot, isBase, smallestSnapshot, i);
      VisibleIsNewest(rest, user, smallestSnapshot, d);
      assert Visible(after, user, smallestSnapshot) != Visible(before, user, smallestSnapshot);
    } else {
      forall user, snapshot: nat | smallestSnapshot <= snapshot
        ensures Visible(after, user, snapshot) == Visible(before, user, snapshot)
      {
        DropKeepsAnswer(rest, input, smallestSnapshot, isBase, user, snapshot);
      }
    }
  }

  lemma DropKeepsAnswer(rest: set<Entry>, input: seq<Entry>, smallestSnapshot: nat, isBase: UserKey -> bool,
                        user: UserKey, snapshot: nat)
    requires Sorted(input) && DistinctSequences(rest + EntrySet(input)) && smallestSnapshot <= snapshot
    requires !exists i: nat, d :: BringsBack(rest, input, smallestSnapshot, isBase, i, d)
    ensures Visible(rest + EntrySet(Kept(input, smallestSnapshot, isBase, |input|)), user, snapshot)
      == Visible(rest + EntrySet(input), user, snapshot)
  {
    var before, after := rest + EntrySet(input), rest + EntrySet(Kept(input, smallestSnapshot, isBase, |input|));
    KeptExactly(input, smallestSnapshot, isBase, |input|);
    assert after <= before;
    if c :| c in before && Candidate(c, user, snapshot) {
      var e := NewestExists(before, user, snapshot, c);
      if e in after {
        SameNewest(before, after, user, snapshot, e);
      } else {
        var i :| 0 <= i < |input| && input[i] == e;
        DroppedNewest(rest, input, smallestSnapshot, isBase, user, snapshot, i);
      }
    } else {
      NothingVisible(before, user, snapshot);
      NothingVisible(after, user, snapshot);
    }
  }

  /** If the newest entry is dropped it is a marker, and nothing shows in its place. */
  lemma DroppedNewest(rest: set<Entry>, input: seq<Entry>, smallestSnapshot: nat, isBase: UserKey -> bool,
                      user: UserKey, snapshot: nat, i: nat)
    requires Sorted(input) && DistinctSequences(rest + EntrySet(input)) && smallestSnapshot <= snapshot
    requires !exists i: nat, d :: BringsBack(rest, input, smallestSnapshot, isBase, i, d)
    requires i < |input| && Dropped(input, smallestSnapshot, isBase, i)
      && IsNewest(rest + EntrySet(input), user, snapshot, input[i])
    ensures Visible(rest + EntrySet(Kept(input, smallestSnapshot, isBase, |input|)), user, snapshot)
      == Visible(rest + EntrySet(input), user, snapshot)
  {
    VisibleIsNewest(rest + EntrySet(input), user, snapshot, input[i]);
    NewestIsNotHidden(rest, input, smallestSnapshot, user, snapshot, i);
    MarkerGone(rest, input, smallestSnapshot, isBase, snapshot, i);
    NothingBroughtBack(rest, input, smallestSnapshot, isBase, i);
  }

  /** Once the newest entry is gone with its marker, what is outside the compaction answers. */
  lemma MarkerGone(rest: set<Entry>, input: seq<Entry>, smallestSnapshot: nat, isBase: UserKey -> bool, snapshot: nat,
                   i: nat)
    requires Sorted(input) && DistinctSequences(rest + EntrySet(input)) && smallestSnapshot <= snapshot
    requires i < |input| && input[i].key.kind.Deletion? && input[i].key.sequence <= smallestSnapshot
      && isBase(input[i].key.user)
    requires IsNewest(rest + EntrySet(input), input[i].key.user, snapshot, input[i])
    ensures Visible(rest + EntrySet(Kept(input, smallestSnapshot, isBase, |input|)), input[i].key.user, snapshot)
      == Visible(rest, input[i].key.user, smallestSnapshot)
  {
    var user, after := input[i].key.user, rest + EntrySet(Kept(input, smallestSnapshot, isBase, |input|));
    KeptExactly(input, smallestSnapshot, isBase, |input|);
    forall d | d in after && Candidate(d, user, snapshot) ensures d in rest && Candidate(d, user, smallestSnapshot) {
      if d !in rest {
        var j :| 0 <= j < |input| && input[j] == d && !Dropped(input, smallestSnapshot, isBase, j);
        NothingKeptBehindMarker(input, smallestSnapshot, isBase, i, j);
      }
      assert d in rest + EntrySet(input);
    }
    SameCandidates(after, rest, user, snapshot, smallestSnapshot);
  }

  lemma SameCandidates(a: set<Entry>, b: set<Entry>, user: UserKey, aSnapshot: nat, bSnapshot: nat)
    requires DistinctSequences(a) && DistinctSequences(b)
    requires forall d :: d in a && Candidate(d, user, aSnapshot) <==> d in b && Candidate(d, user, bSnapshot)
    ensures Visible(a, user, aSnapshot) == Visible(b, user, bSnapshot)
  {
    if c :| c in a && Candidate(c, user, aSnapshot) {
      var e := NewestExists(a, user, aSnapshot, c);
      VisibleIsNewest(a, user, aSnapshot, e);
      VisibleIsNewest(b, user, bSnapshot, e);
    } else {
      NothingVisible(a, user, aSnapshot);
      NothingVisible(b, user, bSnapshot);
    }
  }

  lemma NothingBroughtBack(rest: set<Entry>, input: seq<Entry>, smallestSnapshot: nat, isBase: UserKey -> bool, i: nat)
    requires DistinctSequences(rest) && i < |input| && input[i].key.kind.Deletion? && isBase(input[i].key.user)
    requires IsNewest(rest + EntrySet(input), input[i].key.user, smallestSnapshot, input[i])
    requires !exists i: nat, d :: BringsBack(rest, input, smallestSnapshot, isBase, i, d)
    ensures Visible(rest, input[i].key.user, smallestSnapshot) == None
  {
    var user := input[i].key.user;
    if c :| c in rest && Candidate(c, user, smallestSnapshot) {
      var d := NewestExists(rest, user, smallestSnapshot, c);
      VisibleIsNewest(rest, user, smallestSnapshot, d);
      assert !BringsBack(rest, input, smallestSnapshot, isBase, i, d);
    } else {
      NothingVisible(rest, user, smallestSnapshot);
    }
  }

  /** Behind a deletion marker that every snapshot sees, rule (A) drops all entries of the user key. */
  lemma NothingKeptBehindMarker(input: seq<Entry>, smallestSnapshot: nat, isBase: UserKey -> bool, i: nat, j: nat)
    requires i < |input| && j < |input| && i != j && Sorted(input)
    requires DistinctSequences(EntrySet(input))
    requires input[i].key.sequence <= smallestSnapshot && !Dropped(input, smallestSnapshot, isBase, j)
    ensures input[j].key.user == input[i].key.user ==> input[j].key.sequence > input[i].key.sequence
  {
    if input[j].key.user == input[i].key.user {
      if j < i {
        NewerNeighbour(input, j, i);
      } else {
        NewerNeighbour(input, i, j);
      }
    }
  }

  lemma NewestIsNotHidden(rest: set<Entry>, input: seq<Entry>, smallestSnapshot: nat,
                          user: UserKey, snapshot: nat, i: nat)
    requires i < |input| && Sorted(input)
    requires DistinctSequences(rest + EntrySet(input))
    requires smallestSnapshot <= snapshot
    requires IsNewest(rest + EntrySet(input), user, snapshot, input[i])
    ensures !Hidden(input, smallestSnapshot, i)
  {
    if i > 0 && input[i - 1].key.user == input[i].key.user {
      NewerNeighbour(input, i - 1, i);
      assert input[i - 1] in rest + EntrySet(input);
    }
  }
}
