module Mergers {
  import opened DbFormat
  import opened Cursors
  import opened MergePositions

  datatype Direction = Forward | Reverse

  class MergingIterator {
    /** What the children go through, and where each of them is; past its list if nowhere. */
    const lists: Lists
    var positions: seq<nat>
    var current: Option<nat>
    var direction: Direction

    predicate Valid() reads this {
      current.Some?
    }

    ghost predicate Good() reads this {
      Placed(lists, positions) && (current.Some? ==>
                                   current.value < |lists| && Standing(lists, positions, current.value))
    }

    function Entry(): Entry
      reads this
      requires Good() && Valid()
    {
      lists[current.value][positions[current.value]]
    }

    /** Valid, at this entry of the sorted union, with the children where the direction wants them. */
    ghost predicate AtPosition(merged: seq<Entry>, at: nat) reads this {
      && Good() && Valid() && at < |merged| && Entry() == merged[at]
      && match direction
         case Forward => AllAfter(lists, positions, BeforeKey(merged[at].key))
         case Reverse => AllUpTo(lists, positions, UpToKey(merged[at].key))
    }

    /** Where a search of the union past a cut arrives: at index n, if there is one. */
    ghost predicate Arrives(merged: seq<Entry>, n: nat) reads this {
      Good() && (Valid() <==> n < |merged|) && (Valid() ==> AtPosition(merged, n))
    }

    constructor (lists: Lists)
      requires forall i :: 0 <= i < |lists| ==> Sorted(lists[i])
      ensures Good() && !Valid() && this.lists == lists
    {
      this.lists := lists;
      positions := seq(|lists|, i requires 0 <= i < |lists| => |lists[i]|);
      current, direction := None, Forward;
    }

    method FindSmallest()
      requires Placed(lists, positions)
      modifies this`current
      ensures IsSmallest(lists, positions, |lists|, current) && Good()
    {
      current := None;
      var i := 0;
      while i < |lists|
        invariant i <= |lists| && IsSmallest(lists, positions, i, current)
      {
        if Standing(lists, positions, i) {
          if current.None? {
            current := Some(i);
          } else if Before(KeyAt(lists, positions, i), KeyAt(lists, positions, current.value)) {
            ReplaceSmallest(lists, positions, i, current.value);
            current := Some(i);
          }
        }
        i := i + 1;
      }
    }

    method FindLargest()
      requires Placed(lists, positions)
      modifies this`current
      ensures IsLargest(lists, positions, 0, current) && Good()
    {
      current := None;
      var i: nat := |lists|;
      while i > 0
        invariant i <= |lists| && IsLargest(lists, positions, i, current)
      {
        i := i - 1;
        if Standing(lists, positions, i) {
          if current.None? {
            current := Some(i);
          } else if Before(KeyAt(lists, positions, current.value), KeyAt(lists, positions, i)) {
            ReplaceLargest(lists, positions, i, current.value);
            current := Some(i);
          }
        }
      }
    }

    method SeekToFirst()
      requires Good()
      modifies this
      ensures Good() && direction == Forward && IsSmallest(lists, positions, |lists|, current)
      ensures positions == seq(|lists|, _ => 0)
      ensures forall merged :: IsMerged(lists, merged) ==> Arrives(merged, 0)
    {
      var i := 0;
      while i < |lists|
        invariant i <= |lists| && Placed(lists, positions) && forall j :: 0 <= j < i ==> positions[j] == 0
      {
        positions := positions[i := 0];
        i := i + 1;
      }
      FindSmallest();
      direction := Forward;
      CutsAreClosed(InternalKey(0.0, 0, Value));
      forall merged | IsMerged(lists, merged) ensures Arrives(merged, 0) {
        ArriveForward(this, Nothing(), merged, 0);
      }
    }

    method SeekToLast()
      requires Good()
      modifies this
      ensures Good() && direction == Reverse
      ensures forall merged :: IsMerged(lists, merged) ==> Arrives(merged, LastIn(merged))
    {
      var i := 0;
      while i < |lists|
        invariant i <= |lists| && Placed(lists, positions)
          && forall j :: 0 <= j < i ==> positions[j] == LastIn(lists[j])
      {
        positions := positions[i := LastIn(lists[i])];
        i := i + 1;
      }
      FindLargest();
      direction := Reverse;
      CutsAreClosed(InternalKey(0.0, 0, Value));
      forall merged | IsMerged(lists, merged) ensures Arrives(merged, LastIn(merged)) {
        ArriveReverse(this, Everything(), merged, LastIn(merged));
      }
    }

    method Seek(target: InternalKey)
      requires Good()
      modifies this
      ensures Good() && direction == Forward
      ensures forall merged, n :: IsMerged(lists, merged) && AfterCut(merged, n, BeforeKey(target)) ==>
        Arrives(merged, n)
    {
      var i := 0;
      while i < |lists|
        invariant i <= |lists| && Placed(lists, positions)
        invariant forall j :: 0 <= j < i ==> AfterCut(lists[j], positions[j], BeforeKey(target))
      {
        var p := SeekIn(lists[i], target);
        positions := positions[i := p];
        i := i + 1;
      }
      FindSmallest();
      direction := Forward;
      CutsAreClosed(target);
      forall merged, n | IsMerged(lists, merged) && AfterCut(merged, n, BeforeKey(target)) ensures Arrives(merged, n) {
        ArriveForward(this, BeforeKey(target), merged, n);
      }
    }

    /** Where moving forward wants the other children: past the current key. */
    method FaceForward()
      requires Good() && Valid()
      modifies this`positions, this`direction
      ensures Good() && direction == Forward && positions[current.value] == old(positions)[current.value]
      ensures old(direction) == Forward ==> positions == old(positions)
      ensures old(direction) != Forward ==>
                forall i :: 0 <= i < |lists| && i != current.value ==>
                  AfterCut(lists[i], positions[i], UpToKey(Entry().key))
    {
      if direction == Forward {
        return;
      }
      var key := Entry().key;
      var i := 0;
      while i < |lists|
        invariant i <= |lists| && Placed(lists, positions) && positions[current.value] == old(positions)[current.value]
        invariant forall j :: 0 <= j < i && j != current.value ==> AfterCut(lists[j], positions[j], UpToKey(key))
      {
        if i != current.value {
          var p := SeekIn(lists[i], key);
          if p < |lists[i]| && lists[i][p].key == key {
            StepAfter(lists[i], p);
            p := p + 1;
          } else {
            SoughtPast(lists[i], p, key);
          }
          positions := positions[i := p];
        }
        i := i + 1;
      }
      direction := Forward;
    }

    /** Where moving back wants them: before it. */
    method FaceReverse()
      requires Good() && Valid()
      modifies this`positions, this`direction
      ensures Good() && direction == Reverse && positions[current.value] == old(positions)[current.value]
      ensures old(direction) == Reverse ==> positions == old(positions)
      ensures old(direction) != Reverse ==>
                forall i :: 0 <= i < |lists| && i != current.value ==>
                  UpToCut(lists[i], positions[i], BeforeKey(Entry().key))
    {
      if direction == Reverse {
        return;
      }
      var key := Entry().key;
      var i := 0;
      while i < |lists|
        invariant i <= |lists| && Placed(lists, positions) && positions[current.value] == old(positions)[current.value]
        invariant forall j :: 0 <= j < i && j != current.value ==> UpToCut(lists[j], positions[j], BeforeKey(key))
      {
        if i != current.value {
          var p := SeekIn(lists[i], key);
          positions := positions[i := if p < |lists[i]| then PrevIn(lists[i], p) else LastIn(lists[i])];
        }
        i := i + 1;
      }
      direction := Reverse;
    }

    /** From an entry of the union to the next. With duplicate keys forward moves lose none of them. */
    method Next(ghost merged: seq<Entry>, ghost at: nat)
      requires Good() && Valid()
      modifies this
      ensures Good() && direction == Forward && IsSmallest(lists, positions, |lists|, current)
      ensures Distinct(lists) && IsMerged(lists, merged) && old(AtPosition(merged, at)) ==> Arrives(merged, at + 1)
      ensures old(direction) == Forward ==> positions == old(positions[current.value := positions[current.value] + 1])
    {
      ghost var c, was := current.value, direction;
      FaceForward();
      ghost var ready := ForwardReady(lists, positions, c, merged, at, was == Forward);
      ghost var ps := positions;
      positions := positions[current.value := positions[current.value] + 1];
      FindSmallest();
      if ready {
        ArriveNext(this, ps, c, was == Forward, merged, at);
      }
    }

    method Prev(ghost merged: seq<Entry>, ghost at: nat)
      requires Good() && Valid()
      modifies this
      ensures Good() && direction == Reverse
      ensures Distinct(lists) && IsMerged(lists, merged) && old(AtPosition(merged, at)) ==>
        Arrives(merged, PrevIn(merged, at))
    {
      ghost var c, was := current.value, direction;
      FaceReverse();
      ghost var ready := ReverseReady(lists, positions, c, merged, at, was == Reverse);
      ghost var ps := positions;
      positions := positions[current.value := PrevIn(lists[current.value], positions[current.value])];
      FindLargest();
      if ready {
        ArrivePrev(this, ps, c, was == Reverse, merged, at);
      }
    }
  }

  /** The current child is at entry at of the union, the others where moving forward needs them. */
  ghost predicate ForwardReady(lists: Lists, ps: seq<nat>, c: nat, merged: seq<Entry>, at: nat, wasForward: bool) {
    && Placed(lists, ps) && Distinct(lists) && c < |lists| && Standing(lists, ps, c)
    && IsMerged(lists, merged) && at < |merged| && merged[at].key == KeyAt(lists, ps, c)
    && (wasForward ==> AllAfter(lists, ps, BeforeKey(merged[at].key)))
    && (!wasForward ==> forall i :: 0 <= i < |ps| && i != c ==> AfterCut(lists[i], ps[i], UpToKey(merged[at].key)))
  }

  ghost predicate ReverseReady(lists: Lists, ps: seq<nat>, c: nat, merged: seq<Entry>, at: nat, wasReverse: bool) {
    && Placed(lists, ps) && Distinct(lists) && c < |lists| && Standing(lists, ps, c)
    && IsMerged(lists, merged) && at < |merged| && merged[at].key == KeyAt(lists, ps, c)
    && (wasReverse ==> AllUpTo(lists, ps, UpToKey(merged[at].key)))
    && (!wasReverse ==> forall i :: 0 <= i < |ps| && i != c ==> UpToCut(lists[i], ps[i], BeforeKey(merged[at].key)))
  }

  lemma ArrivePrev(it: MergingIterator, ps: seq<nat>, c: nat, wasReverse: bool, merged: seq<Entry>, at: nat)
    requires it.Good() && it.direction == Reverse && IsLargest(it.lists, it.positions, 0, it.current)
    requires ReverseReady(it.lists, ps, c, merged, at, wasReverse)
      && it.positions == ps[c := PrevIn(it.lists[c], ps[c])]
    ensures it.Arrives(merged, PrevIn(merged, at))
  {
    var key := merged[at].key;
    forall i | 0 <= i < |ps| ensures UpToCut(it.lists[i], it.positions[i], BeforeKey(key)) {
      if i == c {
        StepAfter(it.lists[c], ps[c]);
      } else if wasReverse {
        OthersLackKey(it.lists, ps, c, i);
        CutsAgree(it.lists[i], ps[i], key);
      }
    }
    CutsAreClosed(key);
    StepAfter(merged, at);
    ArriveReverse(it, BeforeKey(key), merged, PrevIn(merged, at));
  }

  lemma SoughtPast(list: seq<Entry>, p: nat, key: InternalKey)
    requires Sorted(list) && AfterCut(list, p, BeforeKey(key)) && (p < |list| ==> list[p].key != key)
    ensures AfterCut(list, p, UpToKey(key))
  {
    forall k | 0 <= k < |list| ensures UpToKey(key)(list[k].key) <==> k < p {
      if k < p {
        KeyOrder(list[k].key, key, list[k].key);
      } else {
        NotBefore(list, p, k);
        KeyOrder(list[p].key, key, list[k].key);
        KeyOrder(key, list[p].key, list[k].key);
      }
    }
  }

  lemma ArriveForward(it: MergingIterator, low: Cut, merged: seq<Entry>, n: nat)
    requires it.Good() && it.direction == Forward && Closed(low) && AllAfter(it.lists, it.positions, low)
    requires IsSmallest(it.lists, it.positions, |it.lists|, it.current)
    requires IsMerged(it.lists, merged) && AfterCut(merged, n, low)
    ensures it.Arrives(merged, n)
  {
    var lists, ps := it.lists, it.positions;
    SmallestIsFirst(lists, ps, low, merged, n, it.current);
    if it.current.Some? {
      AfterSmallest(lists, ps, low, it.current.value);
    }
  }

  lemma ArriveReverse(it: MergingIterator, low: Cut, merged: seq<Entry>, n: nat)
    requires it.Good() && it.direction == Reverse && Closed(low) && AllUpTo(it.lists, it.positions, low)
    requires IsLargest(it.lists, it.positions, 0, it.current)
    requires IsMerged(it.lists, merged) && UpToCut(merged, n, low)
    ensures it.Arrives(merged, n)
  {
    var lists, ps := it.lists, it.positions;
    LargestIsLast(lists, ps, low, merged, n, it.current);
    if it.current.Some? {
      UpToLargest(lists, ps, low, it.current.value);
    }
  }

  lemma ReplaceSmallest(lists: Lists, ps: seq<nat>, i: nat, c: nat)
    requires |ps| == |lists| && i < |lists| && IsSmallest(lists, ps, i, Some(c))
    requires Standing(lists, ps, i) && Before(KeyAt(lists, ps, i), KeyAt(lists, ps, c))
    ensures IsSmallest(lists, ps, i + 1, Some(i))
  {
    forall j | 0 <= j <= i && Standing(lists, ps, j) ensures !Before(KeyAt(lists, ps, j), KeyAt(lists, ps, i)) {
      KeyOrder(KeyAt(lists, ps, j), KeyAt(lists, ps, i), KeyAt(lists, ps, c));
    }
  }

  lemma ReplaceLargest(lists: Lists, ps: seq<nat>, i: nat, c: nat)
    requires |ps| == |lists| && i < |lists| && IsLargest(lists, ps, i + 1, Some(c))
    requires Standing(lists, ps, i) && Before(KeyAt(lists, ps, c), KeyAt(lists, ps, i))
    ensures IsLargest(lists, ps, i, Some(i))
  {
    forall j | i <= j < |lists| && Standing(lists, ps, j) ensures !Before(KeyAt(lists, ps, i), KeyAt(lists, ps, j)) {
      KeyOrder(KeyAt(lists, ps, c), KeyAt(lists, ps, i), KeyAt(lists, ps, j));
    }
  }

  lemma ArriveNext(it: MergingIterator, ps: seq<nat>, c: nat, wasForward: bool, merged: seq<Entry>, at: nat)
    requires it.Good() && it.direction == Forward && IsSmallest(it.lists, it.positions, |it.lists|, it.current)
    requires ForwardReady(it.lists, ps, c, merged, at, wasForward)
    requires it.positions == ps[c := ps[c] + 1]
    ensures it.Arrives(merged, at + 1)
  {
    AdvancedCuts(it.lists, ps, c, wasForward);
    CutsAreClosed(merged[at].key);
    StepAfter(merged, at);
    ArriveForward(it, UpToKey(merged[at].key), merged, at + 1);
  }

  lemma AdvancedCuts(lists: Lists, ps: seq<nat>, c: nat, wasForward: bool)
    requires Placed(lists, ps) && Distinct(lists) && c < |lists| && Standing(lists, ps, c)
    requires wasForward ==> AllAfter(lists, ps, BeforeKey(KeyAt(lists, ps, c)))
    requires !wasForward ==> forall i :: 0 <= i < |lists| && i != c ==>
      AfterCut(lists[i], ps[i], UpToKey(KeyAt(lists, ps, c)))
    ensures AllAfter(lists, ps[c := ps[c] + 1], UpToKey(KeyAt(lists, ps, c)))
  {
    var key := KeyAt(lists, ps, c);
    forall i | 0 <= i < |lists| ensures AfterCut(lists[i], ps[c := ps[c] + 1][i], UpToKey(key)) {
      if i == c {
        StepAfter(lists[c], ps[c]);
      } else if wasForward {
        OthersLackKey(lists, ps, c, i);
        CutsAgree(lists[i], ps[i], key);
      }
    }
  }

  /** What the first n children have not yielded yet. */
  function Remaining(lists: Lists, ps: seq<nat>, n: nat): multiset<Entry>
    requires |ps| == |lists| && n <= |lists| && forall i :: 0 <= i < |lists| ==> ps[i] <= |lists[i]|
  {
    if n == 0 then multiset{} else Remaining(lists, ps, n - 1) + multiset(lists[n - 1][ps[n - 1]..])
  }

  lemma {:induction false} RemainingFrame(lists: Lists, ps: seq<nat>, ps': seq<nat>, n: nat)
    requires Placed(lists, ps) && Placed(lists, ps') && n <= |lists| && ps[..n] == ps'[..n]
    ensures Remaining(lists, ps, n) == Remaining(lists, ps', n)
    decreases n
  {
    if n > 0 {
      assert ps[n - 1] == ps[..n][n - 1] == ps'[..n][n - 1] == ps'[n - 1];
      assert ps[..n - 1] == ps[..n][..n - 1] == ps'[..n][..n - 1] == ps'[..n - 1];
      RemainingFrame(lists, ps, ps', n - 1);
    }
  }

  lemma {:induction false} TakeOne(lists: Lists, ps: seq<nat>, n: nat, c: nat)
    requires Placed(lists, ps) && c < n <= |lists| && Standing(lists, ps, c)
    ensures Remaining(lists, ps, n) == Remaining(lists, ps[c := ps[c] + 1], n) + multiset{lists[c][ps[c]]}
    decreases n
  {
    var ps' := ps[c := ps[c] + 1];
    if c == n - 1 {
      RemainingFrame(lists, ps, ps', n - 1);
      FrontOf(lists[c], ps[c]);
    } else {
      TakeOne(lists, ps, n - 1, c);
    }
  }

  lemma FrontOf(list: seq<Entry>, p: nat)
    requires p < |list|
    ensures multiset(list[p..]) == multiset{list[p]} + multiset(list[p + 1..])
  {
    assert list[p..] == [list[p]] + list[p + 1..];
  }

  lemma {:induction false} NothingRemains(lists: Lists, ps: seq<nat>, n: nat)
    requires Placed(lists, ps) && n <= |lists| && forall i :: 0 <= i < n ==> !Standing(lists, ps, i)
    ensures Remaining(lists, ps, n) == multiset{}
  {
    if n > 0 {
      NothingRemains(lists, ps, n - 1);
      assert !Standing(lists, ps, n - 1);
      assert lists[n - 1][ps[n - 1]..] == [];
    }
  }

  ghost predicate Ascending(out: seq<Entry>) {
    forall i, j :: 0 <= i < j < |out| ==> !Before(out[j].key, out[i].key)
  }

  /** Nothing still to come is before anything already yielded. */
  ghost predicate AllLater(lists: Lists, ps: seq<nat>, out: seq<Entry>)
    requires |ps| == |lists|
  {
    forall i, k :: 0 <= i < |lists| && Standing(lists, ps, i) && 0 <= k < |out| ==>
      !Before(KeyAt(lists, ps, i), out[k].key)
  }

  /** out is what the children have yielded up to here. */
  ghost predicate Yielded(lists: Lists, ps: seq<nat>, out: seq<Entry>) {
    && Placed(lists, ps) && Ascending(out) && AllLater(lists, ps, out)
    && multiset(out) + Remaining(lists, ps, |lists|) == Remaining(lists, seq(|lists|, _ => 0), |lists|)
  }

  lemma YieldOne(lists: Lists, ps: seq<nat>, c: nat, out: seq<Entry>)
    requires Yielded(lists, ps, out) && IsSmallest(lists, ps, |lists|, Some(c))
    ensures Yielded(lists, ps[c := ps[c] + 1], out + [lists[c][ps[c]]])
    ensures |Remaining(lists, ps[c := ps[c] + 1], |lists|)| < |Remaining(lists, ps, |lists|)|
  {
    var e, out', ps' := lists[c][ps[c]], out + [lists[c][ps[c]]], ps[c := ps[c] + 1];
    TakeOne(lists, ps, |lists|, c);
    forall i, k | 0 <= i < |lists| && Standing(lists, ps', i) && 0 <= k < |out'|
      ensures !Before(KeyAt(lists, ps', i), out'[k].key) {
      NotBefore(lists[i], ps[i], ps'[i]);
      assert Standing(lists, ps, i);
      if k < |out| {
        assert !Before(KeyAt(lists, ps, i), out[k].key);
        KeyOrder(KeyAt(lists, ps', i), out[k].key, KeyAt(lists, ps, i));
        KeyOrder(out[k].key, KeyAt(lists, ps', i), KeyAt(lists, ps, i));
      } else {
        KeyOrder(KeyAt(lists, ps', i), e.key, KeyAt(lists, ps, i));
        KeyOrder(e.key, KeyAt(lists, ps', i), KeyAt(lists, ps, i));
      }
    }
  }

  /** A scan forward yields the full sorted multiset, duplicate keys included. */
  method ScanForward(it: MergingIterator) returns (out: seq<Entry>)
    requires it.Good()
    modifies it
    ensures Ascending(out) && multiset(out) == Remaining(it.lists, seq(|it.lists|, _ => 0), |it.lists|)
  {
    out := [];
    it.SeekToFirst();
    while it.Valid()
      invariant it.Good() && it.direction == Forward && IsSmallest(it.lists, it.positions, |it.lists|, it.current)
      invariant Yielded(it.lists, it.positions, out)
      decreases |Remaining(it.lists, it.positions, |it.lists|)|
    {
      out := YieldNext(it, out);
    }
    NothingRemains(it.lists, it.positions, |it.lists|);
  }

  method YieldNext(it: MergingIterator, out: seq<Entry>) returns (out': seq<Entry>)
    requires it.Good() && it.Valid() && it.direction == Forward
      && IsSmallest(it.lists, it.positions, |it.lists|, it.current)
    requires Yielded(it.lists, it.positions, out)
    modifies it
    ensures it.Good() && it.direction == Forward && IsSmallest(it.lists, it.positions, |it.lists|, it.current)
    ensures Yielded(it.lists, it.positions, out') && out' == out + [old(it.Entry())]
    ensures |Remaining(it.lists, it.positions, |it.lists|)| < old(|Remaining(it.lists, it.positions, |it.lists|)|)
  {
    ghost var c, ps := it.current.value, it.positions;
    YieldOne(it.lists, ps, c, out);
    out' := out + [it.Entry()];
    ghost var after := ps[c := ps[c] + 1];
    it.Next([], 0);
    assert it.positions == after;
  }
}
