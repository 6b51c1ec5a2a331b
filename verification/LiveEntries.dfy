/** Which entries a reader at a sequence number gets to see. */
module LiveEntries {
  import opened DbFormat
  import opened Meaning

  predicate InView(list: seq<Entry>, sequence: SequenceNumber, i: nat)
    requires i < |list|
  {
    list[i].key.sequence <= sequence
  }

  /** Entry i is the first of its user key that is in view, and it holds a value. */
  predicate Live(list: seq<Entry>, sequence: SequenceNumber, i: nat)
    requires i < |list|
  {
    && InView(list, sequence, i) && list[i].key.kind.Value?
    && forall j: nat :: j < i && InView(list, sequence, j) ==> list[j].key.user != list[i].key.user
  }

  /** The live user keys and values among the first n entries, in order. */
  function LivePrefix(list: seq<Entry>, sequence: SequenceNumber, n: nat): (r: seq<(UserKey, string)>)
    requires n <= |list|
  {
    if n == 0 then []
    else LivePrefix(list, sequence, n - 1) + if Live(list, sequence, n - 1)
         then [(list[n - 1].key.user, list[n - 1].value)] else []
  }

  function LiveList(list: seq<Entry>, sequence: SequenceNumber): seq<(UserKey, string)> {
    LivePrefix(list, sequence, |list|)
  }

  /** How many live entries come before entry i. */
  function Rank(list: seq<Entry>, sequence: SequenceNumber, i: nat): nat
    requires i <= |list|
  {
    |LivePrefix(list, sequence, i)|
  }

  lemma {:induction false} PrefixesAgree(list: seq<Entry>, sequence: SequenceNumber, i: nat, n: nat)
    requires i <= n <= |list|
    ensures Rank(list, sequence, i) <= Rank(list, sequence, n)
    ensures LivePrefix(list, sequence, n)[..Rank(list, sequence, i)] == LivePrefix(list, sequence, i)
    decreases n
  {
    if i < n {
      PrefixesAgree(list, sequence, i, n - 1);
    }
  }

  /** A live entry is the one at its rank in the list of live entries. */
  lemma LiveAtRank(list: seq<Entry>, sequence: SequenceNumber, i: nat)
    requires i < |list| && Live(list, sequence, i)
    ensures Rank(list, sequence, i) < |LiveList(list, sequence)|
    ensures LiveList(list, sequence)[Rank(list, sequence, i)] == (list[i].key.user, list[i].value)
  {
    PrefixesAgree(list, sequence, i + 1, |list|);
    assert LivePrefix(list, sequence, i + 1)[Rank(list, sequence, i)]
      == LiveList(list, sequence)[Rank(list, sequence, i)];
  }

  /** Ranks do not change over a stretch without live entries. */
  lemma {:induction false} NoneLiveBetween(list: seq<Entry>, sequence: SequenceNumber, i: nat, n: nat)
    requires i <= n <= |list| && forall k :: i <= k < n ==> !Live(list, sequence, k)
    ensures Rank(list, sequence, n) == Rank(list, sequence, i)
    decreases n
  {
    if i < n {
      NoneLiveBetween(list, sequence, i, n - 1);
    }
  }

  /** The live list is what the entries mean at the sequence number: strictly increasing user keys,
      each with the value of its newest entry in view. */
  lemma {:induction false} LiveListIsVisible(list: seq<Entry>, sequence: SequenceNumber, n: nat, k: nat)
    requires Sorted(list) && DistinctSequences(EntrySet(list)) && n <= |list| && k < Rank(list, sequence, n)
    ensures Visible(EntrySet(list), LivePrefix(list, sequence, n)[k].0, sequence)
      == Some(LivePrefix(list, sequence, n)[k].1)
    ensures exists i: nat :: i < n && list[i].key.user == LivePrefix(list, sequence, n)[k].0
    ensures k + 1 < Rank(list, sequence, n) ==>
      LivePrefix(list, sequence, n)[k].0 < LivePrefix(list, sequence, n)[k + 1].0
    decreases n
  {
    if k < Rank(list, sequence, n - 1) {
      LiveListIsVisible(list, sequence, n - 1, k);
      if k + 1 == Rank(list, sequence, n - 1) && Live(list, sequence, n - 1) {
        LiveUsersIncrease(list, sequence, n - 1, k);
      }
    } else {
      LiveIsNewest(list, sequence, n - 1);
    }
  }

  lemma {:induction false} LiveUsersIncrease(list: seq<Entry>, sequence: SequenceNumber, n: nat, k: nat)
    requires Sorted(list) && n < |list| && k < Rank(list, sequence, n) && Live(list, sequence, n)
    ensures LivePrefix(list, sequence, n)[k].0 < list[n].key.user
  {
    var i := LiveIndex(list, sequence, n, k);
    assert Before(list[i].key, list[n].key);
  }

  lemma {:induction false} LiveIndex(list: seq<Entry>, sequence: SequenceNumber, n: nat, k: nat) returns (i: nat)
    requires n <= |list| && k < Rank(list, sequence, n)
    ensures i < n && Live(list, sequence, i) && LivePrefix(list, sequence, n)[k] == (list[i].key.user, list[i].value)
    decreases n
  {
    i := n - 1;
    if k < Rank(list, sequence, n - 1) {
      i := LiveIndex(list, sequence, n - 1, k);
    }
  }

  lemma LiveIsNewest(list: seq<Entry>, sequence: SequenceNumber, i: nat)
    requires Sorted(list) && DistinctSequences(EntrySet(list)) && i < |list| && Live(list, sequence, i)
    ensures Visible(EntrySet(list), list[i].key.user, sequence) == Some(list[i].value)
  {
    var db := EntrySet(list);
    forall f | f in db && Candidate(f, list[i].key.user, sequence) ensures f.key.sequence <= list[i].key.sequence {
      var j :| 0 <= j < |list| && list[j] == f;
      assert j == i || (j > i && Before(list[i].key, f.key));
    }
    VisibleIsNewest(db, list[i].key.user, sequence, list[i]);
  }

  /** And no visible user key is missing from it. */
  lemma VisibleIsLive(list: seq<Entry>, sequence: SequenceNumber, user: UserKey) returns (k: nat)
    requires Sorted(list) && DistinctSequences(EntrySet(list)) && Visible(EntrySet(list), user, sequence).Some?
    ensures k < |LiveList(list, sequence)|
    ensures LiveList(list, sequence)[k] == (user, Visible(EntrySet(list), user, sequence).value)
  {
    var db := EntrySet(list);
    var e :| IsNewest(db, user, sequence, e) && e.key.kind.Value?;
    var i :| 0 <= i < |list| && list[i] == e;
    forall j: nat | j < i && InView(list, sequence, j) ensures list[j].key.user != user {
      assert list[j] in db && Before(list[j].key, e.key);
    }
    LiveAtRank(list, sequence, i);
    LiveIsNewest(list, sequence, i);
    k := Rank(list, sequence, i);
  }
}
