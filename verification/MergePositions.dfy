// Merging several sorted iterators into one (table/merger.cc).

/** Where the children stand relative to a key. */
module MergePositions {
  import opened DbFormat

  type Lists = seq<seq<Entry>>

  ghost predicate Placed(lists: Lists, ps: seq<nat>) {
    && |ps| == |lists| && forall i :: 0 <= i < |lists| ==> Sorted(lists[i]) && ps[i] <= |lists[i]|
  }

  /** No key occurs in two children. */
  ghost predicate Distinct(lists: Lists) {
    forall i, j, k, l :: 0 <= i < j < |lists| && 0 <= k < |lists[i]| && 0 <= l < |lists[j]| ==>
      lists[i][k].key != lists[j][l].key
  }

  predicate Standing(lists: Lists, ps: seq<nat>, i: nat)
    requires |ps| == |lists| && i < |lists|
  {
    ps[i] < |lists[i]|
  }

  function KeyAt(lists: Lists, ps: seq<nat>, i: nat): InternalKey
    requires |ps| == |lists| && i < |lists| && Standing(lists, ps, i)
  {
    lists[i][ps[i]].key
  }

  /** FindSmallest's choice among the first n children: the first of those with the smallest key. */
  ghost predicate IsSmallest(lists: Lists, ps: seq<nat>, n: nat, c: Option<nat>)
    requires |ps| == |lists| && n <= |lists|
  {
    match c
    case None => forall i :: 0 <= i < n ==> !Standing(lists, ps, i)
    case Some(b) =>
      && b < n && Standing(lists, ps, b)
      && forall i :: 0 <= i < n && Standing(lists, ps, i) ==> !Before(KeyAt(lists, ps, i), KeyAt(lists, ps, b))
  }

  /** FindLargest's choice among the children from n on. */
  ghost predicate IsLargest(lists: Lists, ps: seq<nat>, n: nat, c: Option<nat>)
    requires |ps| == |lists| && n <= |lists|
  {
    match c
    case None => forall i :: n <= i < |lists| ==> !Standing(lists, ps, i)
    case Some(b) =>
      && n <= b < |lists| && Standing(lists, ps, b)
      && forall i :: n <= i < |lists| && Standing(lists, ps, i) ==> !Before(KeyAt(lists, ps, b), KeyAt(lists, ps, i))
  }

  /** Which keys lie before a cut: those for which low holds. */
  type Cut = InternalKey -> bool

  /** At the first entry past the cut. */
  ghost predicate AfterCut(list: seq<Entry>, p: nat, low: Cut) {
    && p <= |list| && (forall k :: 0 <= k < p ==> low(list[k].key)) && forall k :: p <= k < |list| ==> !low(list[k].key)
  }

  /** At the last entry before the cut, or nowhere. */
  ghost predicate UpToCut(list: seq<Entry>, p: nat, low: Cut) {
    && p <= |list| && (p < |list| ==> low(list[p].key))
    && forall k :: 0 <= k < |list| && (p == |list| || p < k) ==> !low(list[k].key)
  }

  ghost predicate AllAfter(lists: Lists, ps: seq<nat>, low: Cut) {
    |ps| == |lists| && forall i :: 0 <= i < |lists| ==> AfterCut(lists[i], ps[i], low)
  }

  ghost predicate AllUpTo(lists: Lists, ps: seq<nat>, low: Cut) {
    |ps| == |lists| && forall i :: 0 <= i < |lists| ==> UpToCut(lists[i], ps[i], low)
  }

  ghost predicate InSome(lists: Lists, e: Entry) {
    exists i :: 0 <= i < |lists| && e in lists[i]
  }

  /** The sorted union. */
  ghost predicate IsMerged(lists: Lists, merged: seq<Entry>) {
    && Sorted(merged) && (forall e :: e in merged ==> InSome(lists, e))
    && forall i, e :: 0 <= i < |lists| && e in lists[i] ==> e in merged
  }

  lemma KeyOrder(a: InternalKey, b: InternalKey, c: InternalKey)
    ensures Before(a, b) && Before(b, c) ==> Before(a, c)
    ensures !(Before(a, b) && Before(b, a)) && (a == b || Before(a, b) || Before(b, a))
  {
  }

  lemma NotBefore(list: seq<Entry>, i: nat, j: nat)
    requires Sorted(list) && i <= j < |list|
    ensures !Before(list[j].key, list[i].key)
  {
    if i < j {
      KeyOrder(list[i].key, list[j].key, list[i].key);
    }
  }

  /** Of children that all stand at their first entry past the cut the smallest stands at the first
      entry of the union past the cut. */
  lemma SmallestIsFirst(lists: Lists, ps: seq<nat>, low: Cut, merged: seq<Entry>, n: nat, c: Option<nat>)
    requires Placed(lists, ps) && AllAfter(lists, ps, low) && IsMerged(lists, merged) && AfterCut(merged, n, low)
    requires IsSmallest(lists, ps, |lists|, c)
    ensures c.Some? <==> n < |merged|
    ensures c.Some? ==> lists[c.value][ps[c.value]] == merged[n]
  {
    if c.Some? {
      var e := lists[c.value][ps[c.value]];
      assert e in merged;
      var j :| 0 <= j < |merged| && merged[j] == e;
      assert n <= j;
      assert n < j ==> Before(merged[n].key, e.key);
      FirstIsNotLess(lists, ps, low, merged[n], c.value);
    }
    forall e | e in merged && !low(e.key) ensures c.Some? {
      SomeoneStandsAfter(lists, ps, low, e);
    }
    assert n < |merged| ==> merged[n] in merged;
  }

  lemma SomeoneStandsAfter(lists: Lists, ps: seq<nat>, low: Cut, e: Entry)
    requires AllAfter(lists, ps, low) && InSome(lists, e) && !low(e.key)
    ensures exists i :: 0 <= i < |lists| && Standing(lists, ps, i)
  {
    var i :| 0 <= i < |lists| && e in lists[i];
    var k :| 0 <= k < |lists[i]| && lists[i][k] == e;
    assert AfterCut(lists[i], ps[i], low) && Standing(lists, ps, i);
  }

  lemma SomeoneStandsBefore(lists: Lists, ps: seq<nat>, low: Cut, e: Entry)
    requires AllUpTo(lists, ps, low) && InSome(lists, e) && low(e.key)
    ensures exists i :: 0 <= i < |lists| && Standing(lists, ps, i)
  {
    var i :| 0 <= i < |lists| && e in lists[i];
    var k :| 0 <= k < |lists[i]| && lists[i][k] == e;
    assert UpToCut(lists[i], ps[i], low) && Standing(lists, ps, i);
  }

  lemma FirstIsNotLess(lists: Lists, ps: seq<nat>, low: Cut, e: Entry, c: nat)
    requires Placed(lists, ps) && AllAfter(lists, ps, low) && InSome(lists, e) && !low(e.key)
      && IsSmallest(lists, ps, |lists|, Some(c))
    ensures !Before(e.key, KeyAt(lists, ps, c))
  {
    var i :| 0 <= i < |lists| && e in lists[i];
    var k :| 0 <= k < |lists[i]| && lists[i][k] == e;
    assert AfterCut(lists[i], ps[i], low) && ps[i] <= k;
    NotBefore(lists[i], ps[i], k);
    assert Standing(lists, ps, i);
    KeyOrder(e.key, KeyAt(lists, ps, c), KeyAt(lists, ps, i));
    KeyOrder(KeyAt(lists, ps, i), KeyAt(lists, ps, c), e.key);
  }

  lemma LargestIsLast(lists: Lists, ps: seq<nat>, low: Cut, merged: seq<Entry>, n: nat, c: Option<nat>)
    requires Placed(lists, ps) && AllUpTo(lists, ps, low) && IsMerged(lists, merged) && UpToCut(merged, n, low)
    requires IsLargest(lists, ps, 0, c)
    ensures c.Some? <==> n < |merged|
    ensures c.Some? ==> lists[c.value][ps[c.value]] == merged[n]
  {
    if c.Some? {
      var e := lists[c.value][ps[c.value]];
      assert UpToCut(lists[c.value], ps[c.value], low) && e in merged;
      var j :| 0 <= j < |merged| && merged[j] == e;
      assert n < |merged| && j <= n;
      assert j < n ==> Before(e.key, merged[n].key);
      LastIsNotLess(lists, ps, low, merged[n], c.value);
    }
    forall e | e in merged && low(e.key) ensures c.Some? {
      SomeoneStandsBefore(lists, ps, low, e);
    }
    assert n < |merged| ==> merged[n] in merged;
  }

  lemma LastIsNotLess(lists: Lists, ps: seq<nat>, low: Cut, e: Entry, c: nat)
    requires Placed(lists, ps) && AllUpTo(lists, ps, low) && InSome(lists, e) && low(e.key)
      && IsLargest(lists, ps, 0, Some(c))
    ensures !Before(KeyAt(lists, ps, c), e.key)
  {
    var i :| 0 <= i < |lists| && e in lists[i];
    var k :| 0 <= k < |lists[i]| && lists[i][k] == e;
    assert UpToCut(lists[i], ps[i], low) && k <= ps[i] < |lists[i]|;
    NotBefore(lists[i], k, ps[i]);
    assert Standing(lists, ps, i);
    KeyOrder(KeyAt(lists, ps, c), e.key, KeyAt(lists, ps, i));
    KeyOrder(KeyAt(lists, ps, i), KeyAt(lists, ps, c), e.key);
  }

  function BeforeKey(key: InternalKey): Cut {
    k => Before(k, key)
  }

  function UpToKey(key: InternalKey): Cut {
    k => !Before(key, k)
  }

  function Everything(): Cut {
    k => true
  }

  function Nothing(): Cut {
    k => false
  }

  /** What is before the cut is before what is past it. */
  ghost predicate Closed(low: Cut) {
    forall a, b :: low(a) && !low(b) ==> Before(a, b)
  }

  lemma CutsAreClosed(key: InternalKey)
    ensures Closed(BeforeKey(key)) && Closed(UpToKey(key)) && Closed(Everything()) && Closed(Nothing())
  {
    forall a, b | BeforeKey(key)(a) && !BeforeKey(key)(b) ensures Before(a, b) {
      KeyOrder(a, key, b);
      KeyOrder(b, key, b);
    }
    forall a, b | UpToKey(key)(a) && !UpToKey(key)(b) ensures Before(a, b) {
      KeyOrder(a, key, b);
    }
  }

  /** Children past a cut are at their first entries from the smallest of these on. */
  lemma AfterSmallest(lists: Lists, ps: seq<nat>, low: Cut, c: nat)
    requires Placed(lists, ps) && AllAfter(lists, ps, low) && Closed(low) && IsSmallest(lists, ps, |lists|, Some(c))
    ensures AllAfter(lists, ps, BeforeKey(KeyAt(lists, ps, c)))
  {
    var key := KeyAt(lists, ps, c);
    assert AfterCut(lists[c], ps[c], low);
    forall i | 0 <= i < |lists| ensures AfterCut(lists[i], ps[i], BeforeKey(key)) {
      assert AfterCut(lists[i], ps[i], low);
      forall k | ps[i] <= k < |lists[i]| ensures !Before(lists[i][k].key, key) {
        assert Standing(lists, ps, i);
        NotBefore(lists[i], ps[i], k);
        KeyOrder(lists[i][k].key, key, KeyAt(lists, ps, i));
        KeyOrder(KeyAt(lists, ps, i), lists[i][k].key, key);
      }
    }
  }

  lemma UpToLargest(lists: Lists, ps: seq<nat>, low: Cut, c: nat)
    requires Placed(lists, ps) && AllUpTo(lists, ps, low) && Closed(low) && IsLargest(lists, ps, 0, Some(c))
    ensures AllUpTo(lists, ps, UpToKey(KeyAt(lists, ps, c)))
  {
    var key := KeyAt(lists, ps, c);
    assert UpToCut(lists[c], ps[c], low);
    forall i | 0 <= i < |lists| ensures UpToCut(lists[i], ps[i], UpToKey(key)) {
      assert UpToCut(lists[i], ps[i], low);
      assert Standing(lists, ps, i) ==> !Before(key, KeyAt(lists, ps, i));
    }
  }

  /** One child moves on past its own entry. */
  lemma StepAfter(list: seq<Entry>, p: nat)
    requires Sorted(list) && p < |list|
    ensures AfterCut(list, p + 1, UpToKey(list[p].key))
    ensures UpToCut(list, if p == 0 then |list| else p - 1, BeforeKey(list[p].key))
  {
    forall k | 0 <= k <= p ensures !Before(list[p].key, list[k].key) {
      NotBefore(list, k, p);
    }
    forall k | p <= k < |list| ensures !Before(list[k].key, list[p].key) {
      NotBefore(list, p, k);
    }
  }

  /** A child that does not have the key cannot tell the two cuts at it apart. */
  lemma CutsAgree(list: seq<Entry>, p: nat, key: InternalKey)
    requires Sorted(list) && p <= |list| && forall k :: 0 <= k < |list| ==> list[k].key != key
    ensures AfterCut(list, p, BeforeKey(key)) <==> AfterCut(list, p, UpToKey(key))
    ensures UpToCut(list, p, BeforeKey(key)) <==> UpToCut(list, p, UpToKey(key))
  {
    forall k | 0 <= k < |list| ensures BeforeKey(key)(list[k].key) <==> UpToKey(key)(list[k].key) {
      KeyOrder(list[k].key, key, list[k].key);
    }
  }

  lemma OthersLackKey(lists: Lists, ps: seq<nat>, c: nat, i: nat)
    requires Distinct(lists) && |ps| == |lists| && c < |lists| && i < |lists| && i != c && Standing(lists, ps, c)
    ensures forall k :: 0 <= k < |lists[i]| ==> lists[i][k].key != KeyAt(lists, ps, c)
  {
  }
}
