module BlockIters {
  import opened DbFormat
  import opened Coding
  import opened BlockFormat

  /** Block and Block::Iter, over the contents of a well-formed block. */
  class Iter {
    const order: Order
    const contents: Bytes
    /** Offset of the restart array, and how many there are. */
    const restarts: nat
    const numRestarts: nat
    var current: nat
    var restartIndex: nat
    var key: Bytes
    /** value_ as its offset and length. */
    var valueStart: nat
    var valueLength: nat
    ghost const layout: Layout
    /** Which entry the iterator is at; |entries| if at none. */
    ghost var index: nat

    ghost predicate BlockGood() {
      IsBlock(contents, restarts, layout) && numRestarts == |layout.firsts|
    }

    /** The entries are as the comparator wants them; only the searches need that. */
    ghost predicate Sorted() {
      forall i, j :: 0 <= i < j < |layout.entries| ==> order(layout.entries[i].key) < order(layout.entries[j].key)
    }

    predicate Valid() reads this {
      current < restarts
    }

    lemma EntryIs()
      requires Good() && index < |layout.entries|
      ensures valueStart + valueLength <= |contents| && Entry() == layout.entries[index]
    {
    }

    lemma ValidAtEntry()
      requires Good()
      ensures Valid() <==> index < |layout.entries|
    {
      StartsInRange(contents, restarts, layout, index);
    }

    ghost predicate Good() reads this {
      && BlockGood() && index <= |layout.entries|
      && (index == |layout.entries| ==> current == restarts)
      && (index < |layout.entries| ==> AtEntry(index))
    }

    /** The key is whole, value_ ends where the entry ends, and the entry is between its restart point
        and the next. */
    ghost predicate AtEntry(i: nat)
      reads this
      requires BlockGood() && i < |layout.entries|
    {
      && EntryLaidOut(contents, restarts, layout, i)
      && current == layout.starts[i] && key == layout.entries[i].key
      && valueStart + valueLength == layout.starts[i + 1] && valueStart <= restarts
      && contents[valueStart..layout.starts[i + 1]] == layout.entries[i].value
      && restartIndex < numRestarts && layout.firsts[restartIndex] <= i
      && (restartIndex + 1 < numRestarts ==> i <= layout.firsts[restartIndex + 1])
    }

    /** Ready to parse entry i. */
    ghost predicate BeforeEntry(i: nat)
      reads this
      requires BlockGood() && i <= |layout.entries|
    {
      && valueStart + valueLength == layout.starts[i] && restartIndex < numRestarts && layout.firsts[restartIndex] <= i
      && (restartIndex + 1 < numRestarts ==> i <= layout.firsts[restartIndex + 1] + 1)
      && (i < |layout.entries| ==>
        && EntryLaidOut(contents, restarts, layout, i)
        && layout.shared[i] <= |key| && key[..layout.shared[i]] == layout.entries[i].key[..layout.shared[i]])
    }

    function NextEntryOffset(): nat reads this {
      valueStart + valueLength
    }

    method GetRestartPoint(r: nat) returns (offset: nat)
      requires BlockGood() && r < numRestarts
      ensures offset == layout.starts[layout.firsts[r]]
    {
      assert RestartAt(contents, restarts, layout, r);
      StartsInRange(contents, restarts, layout, layout.firsts[r]);
      FixedWidths();
      FixedRoundTrip(layout.starts[layout.firsts[r]], 4);
      offset := DecodeFixed(contents[restarts + 4 * r..restarts + 4 * r + 4]);
    }

    method SeekToRestartPoint(r: nat)
      requires BlockGood() && r < numRestarts
      modifies this
      ensures layout.firsts[r] <= |layout.entries| && BeforeEntry(layout.firsts[r]) && restartIndex == r && key == []
    {
      key := [];
      restartIndex := r;
      var offset := GetRestartPoint(r);
      valueStart, valueLength := offset, 0;
      FirstsIncrease(layout, r);
      assert layout.firsts[r] < |layout.entries| ==> EntryLaidOut(contents, restarts, layout, layout.firsts[r]);
    }

    /** The next entry, or none. */
    method ParseNextKey(ghost i: nat) returns (more: bool)
      requires BlockGood() && i <= |layout.entries| && BeforeEntry(i)
      modifies this
      ensures Good() && index == i && (more <==> i < |layout.entries|)
      ensures more ==> BeforeEntry(i + 1) && restartIndex >= old(restartIndex)
    {
      index := i;
      current := NextEntryOffset();
      StartsInRange(contents, restarts, layout, i);
      if current >= restarts {
        current := restarts;
        restartIndex := numRestarts;
        return false;
      }
      TakeEntry(i);
      AdvanceRestart(i);
      NextFollows(contents, restarts, layout, i);
      more := true;
    }

    method TakeEntry(ghost i: nat)
      requires BlockGood() && i < |layout.entries| && BeforeEntry(i) && current == layout.starts[i]
      modifies this`key, this`valueStart, this`valueLength
      ensures key == layout.entries[i].key && EntryLaidOut(contents, restarts, layout, i)
      ensures valueStart + valueLength == layout.starts[i + 1]
        && contents[valueStart..layout.starts[i + 1]] == layout.entries[i].value
    {
      ghost var e, s := layout.entries[i], layout.shared[i];
      ghost var at := EntryDecodes(contents, restarts, layout, i);
      var p := DecodeEntry(contents[current..restarts]);
      var shared, nonShared, length, rest := p.value.0, p.value.1, p.value.2, p.value.3;
      assert key[..shared] + e.key[s..] == e.key;
      key := key[..shared] + rest[..nonShared];
      valueStart, valueLength := restarts - |rest| + nonShared, length;
    }

    method AdvanceRestart(ghost i: nat)
      requires BlockGood() && i < |layout.entries| && current == layout.starts[i]
      requires restartIndex < numRestarts && layout.firsts[restartIndex] <= i
      requires restartIndex + 1 < numRestarts ==> i <= layout.firsts[restartIndex + 1] + 1
      modifies this`restartIndex
      ensures restartIndex < numRestarts && layout.firsts[restartIndex] <= i && old(restartIndex) <= restartIndex
      ensures restartIndex + 1 < numRestarts ==> i <= layout.firsts[restartIndex + 1]
    {
      var done := false;
      while !done && restartIndex + 1 < numRestarts
        invariant restartIndex < numRestarts && layout.firsts[restartIndex] <= i && old(restartIndex) <= restartIndex
        invariant done && restartIndex + 1 < numRestarts ==> i <= layout.firsts[restartIndex + 1]
        decreases !done, numRestarts - restartIndex
      {
        var next := GetRestartPoint(restartIndex + 1);
        StartsIncrease(contents, restarts, layout, layout.firsts[restartIndex + 1], i);
        if next < current {
          restartIndex := restartIndex + 1;
        } else {
          done := true;
        }
      }
    }

    /** NumRestarts and the start of the restart array come from the end of the block. */
    constructor (order: Order, contents: Bytes, ghost end: nat, ghost layout: Layout)
      requires IsBlock(contents, end, layout)
      ensures Good() && !Valid() && this.order == order && this.layout == layout && restarts == end
    {
      FixedWidths();
      FixedRoundTrip(|layout.firsts|, 4);
      assert contents[|contents| - 4..] == PutFixed(|layout.firsts|, 4);
      var n := DecodeFixed(contents[|contents| - 4..]);
      this.order, this.contents, this.layout := order, contents, layout;
      numRestarts := n;
      restarts := |contents| - (1 + n) * 4;
      current, restartIndex := |contents| - (1 + n) * 4, n;
      key, valueStart, valueLength, index := [], 0, 0, |layout.entries|;
    }

    function Entry(): KeyValue
      reads this
      requires valueStart + valueLength <= |contents|
    {
      KeyValue(key, contents[valueStart..valueStart + valueLength])
    }

    method Next()
      requires Good() && Valid()
      modifies this
      ensures Good() && index == old(index) + 1
    {
      NextFollows(contents, restarts, layout, index);
      var _ := ParseNextKey(index + 1);
    }

    /** Back to a restart point before the entry, then forward to the entry before it. */
    method Prev()
      requires Good() && Valid()
      modifies this
      ensures Good() && index == if old(index) == 0 then |layout.entries| else old(index) - 1
    {
      var original := current;
      ghost var i := index;
      while true
        invariant BlockGood() && index == i < |layout.entries| && original == layout.starts[i]
        invariant restartIndex < numRestarts && layout.firsts[restartIndex] <= i
        decreases restartIndex
      {
        var offset := GetRestartPoint(restartIndex);
        StartsIncrease(contents, restarts, layout, layout.firsts[restartIndex], i);
        if offset < original {
          break;
        }
        if restartIndex == 0 {
          current := restarts;
          restartIndex := numRestarts;
          index := |layout.entries|;
          return;
        }
        FirstsIncrease(layout, restartIndex);
        restartIndex := restartIndex - 1;
      }
      SeekToRestartPoint(restartIndex);
      ScanUpTo(original, layout.firsts[restartIndex], i);
    }

    /** do {} while (ParseNextKey() && NextEntryOffset() < limit). */
    method ScanUpTo(limit: nat, ghost from: nat, ghost i: nat)
      requires BlockGood() && from <= i <= |layout.entries| && BeforeEntry(from) && limit == layout.starts[i]
      requires from == i ==> i == |layout.entries|
      modifies this
      ensures Good() && index == if from < i then i - 1 else i
    {
      ghost var j := from;
      var more := ParseNextKey(j);
      while more && NextEntryOffset() < limit
        invariant Good() && index == j && (more ==> j < i && BeforeEntry(j + 1)) && (!more ==> from == i == j)
        decreases i - j
      {
        StartsIncrease(contents, restarts, layout, j + 1, i);
        j := j + 1;
        more := ParseNextKey(j);
      }
      if more {
        StartsIncrease(contents, restarts, layout, j + 1, i);
      }
    }

    method SeekToFirst()
      requires Good()
      modifies this
      ensures Good() && index == 0
    {
      SeekToRestartPoint(0);
      var _ := ParseNextKey(0);
    }

    method SeekToLast()
      requires Good()
      modifies this
      ensures Good() && index == if layout.entries == [] then 0 else |layout.entries| - 1
    {
      SeekToRestartPoint(numRestarts - 1);
      ScanUpTo(restarts, layout.firsts[numRestarts - 1], |layout.entries|);
      assert layout.entries != [] ==> layout.firsts[numRestarts - 1] < |layout.entries|;
    }

    /** Binary search for the last restart point before the target, or the first restart point. */
    method FindRestartPoint(target: Bytes) returns (left: nat)
      requires BlockGood() && Sorted()
      ensures left < numRestarts && layout.firsts[left] <= |layout.entries| && AllBefore(target, layout.firsts[left])
    {
      left := 0;
      var right := numRestarts - 1;
      while left < right
        invariant 0 <= left <= right < numRestarts
        invariant left > 0 ==> layout.firsts[left] < |layout.entries|
                               && order(layout.entries[layout.firsts[left]].key) < order(target)
        decreases right - left
      {
        var mid := (left + right + 1) / 2;
        var midKey := KeyAtRestart(mid);
        if order(midKey) < order(target) {
          left := mid;
        } else {
          right := mid - 1;
        }
      }
      FirstsIncrease(layout, left);
    }

    lemma AllBeforeNext(target: Bytes, n: nat)
      requires BlockGood() && n < |layout.entries| && AllBefore(target, n)
        && order(layout.entries[n].key) < order(target)
      ensures AllBefore(target, n + 1)
    {
    }

    ghost predicate AllBefore(target: Bytes, n: nat)
      requires BlockGood() && n <= |layout.entries|
    {
      forall i :: 0 <= i < n ==> order(layout.entries[i].key) < order(target)
    }

    method Seek(target: Bytes)
      requires Good() && Sorted()
      modifies this
      ensures Good() && (forall i :: 0 <= i < index ==> order(layout.entries[i].key) < order(target))
      ensures index < |layout.entries| ==> order(layout.entries[index].key) >= order(target)
    {
      var left := FindRestartPoint(target);
      SeekToRestartPoint(left);
      ScanFor(target, layout.firsts[left]);
    }

    /** Entry by entry to the first one at or after the target. */
    method ScanFor(target: Bytes, ghost from: nat)
      requires BlockGood() && from <= |layout.entries| && BeforeEntry(from) && AllBefore(target, from)
      modifies this
      ensures Good() && AllBefore(target, index)
      ensures index < |layout.entries| ==> order(layout.entries[index].key) >= order(target)
    {
      ghost var j := from;
      var more := ParseNextKey(j);
      while more && order(key) < order(target)
        invariant Good() && index == j <= |layout.entries| && (more <==> j < |layout.entries|)
          && (more ==> BeforeEntry(j + 1))
        invariant AllBefore(target, j)
        decreases |layout.entries| - j
      {
        AllBeforeNext(target, j);
        j := j + 1;
        more := ParseNextKey(j);
      }
    }

    /** The whole key of the entry at a restart point. */
    method KeyAtRestart(r: nat) returns (k: Bytes)
      requires BlockGood() && 0 < r < numRestarts
      ensures layout.firsts[r] < |layout.entries| && k == layout.entries[layout.firsts[r]].key
    {
      var offset := GetRestartPoint(r);
      ghost var i := layout.firsts[r];
      assert EntryLaidOut(contents, restarts, layout, i);
      ghost var at := EntryDecodes(contents, restarts, layout, i);
      var p := DecodeEntry(contents[offset..restarts]);
      k := p.value.3[..p.value.1];
    }
  }

  /** A scan forward yields the entries; so a built block reads back as what was added. */
  method ScanBlock(it: Iter) returns (found: seq<KeyValue>)
    requires it.Good()
    modifies it
    ensures found == it.layout.entries
  {
    found := [];
    it.SeekToFirst();
    it.ValidAtEntry();
    while it.Valid()
      invariant it.Good() && (it.Valid() <==> it.index < |it.layout.entries|) && found == it.layout.entries[..it.index]
      decreases |it.layout.entries| - it.index
    {
      found := TakeAndStep(it, found);
    }
  }

  method TakeAndStep(it: Iter, found: seq<KeyValue>) returns (more: seq<KeyValue>)
    requires it.Good() && it.index < |it.layout.entries| && found == it.layout.entries[..it.index]
    modifies it
    ensures it.Good() && it.index == old(it.index) + 1 && more == it.layout.entries[..it.index]
    ensures it.Valid() <==> it.index < |it.layout.entries|
  {
    it.EntryIs();
    it.ValidAtEntry();
    more := found + [it.Entry()];
    it.Next();
    it.ValidAtEntry();
  }

  lemma {:induction false} StartsIncrease(data: Bytes, end: nat, l: Layout, i: nat, j: nat)
    requires EntriesLaidOut(data, end, l) && i <= |l.entries| && j <= |l.entries|
    ensures i < j <==> l.starts[i] < l.starts[j]
    decreases if i < j then j - i else i - j
  {
    if i < j {
      assert EntryLaidOut(data, end, l, i);
      if i + 1 < j {
        StartsIncrease(data, end, l, i + 1, j);
      }
    } else if j < i {
      assert EntryLaidOut(data, end, l, j);
      if j + 1 < i {
        StartsIncrease(data, end, l, i, j + 1);
        StartsIncrease(data, end, l, j + 1, i);
      }
    }
  }

  lemma StartsInRange(data: Bytes, end: nat, l: Layout, i: nat)
    requires EntriesLaidOut(data, end, l) && i <= |l.entries|
    ensures l.starts[i] <= end && (i < |l.entries| <==> l.starts[i] < end)
  {
    StartsIncrease(data, end, l, i, |l.entries|);
    StartsIncrease(data, end, l, |l.entries|, i);
  }

  lemma {:induction false} FirstsIncrease(l: Layout, r: nat)
    requires RestartsLaidOut(l) && r < |l.firsts|
    ensures l.firsts[r] <= |l.entries|
    ensures forall q :: 0 <= q < r ==> l.firsts[q] < l.firsts[r]
    decreases r
  {
    if r > 0 {
      FirstsIncrease(l, r - 1);
    }
  }

  /** at is where the rest of the key begins. */
  lemma EntryDecodes(data: Bytes, end: nat, l: Layout, i: nat) returns (at: nat)
    requires EntriesLaidOut(data, end, l) && i < |l.entries| && EntryLaidOut(data, end, l, i)
    ensures var e, s := l.entries[i], l.shared[i];
            && l.starts[i] < at && at + (|e.key| - s) + |e.value| == l.starts[i + 1]
            && DecodeEntry(data[l.starts[i]..end]) == Some((s, |e.key| - s, |e.value|, data[at..end]))
            && data[at..end][..|e.key| - s] == e.key[s..]
            && data[at + (|e.key| - s)..l.starts[i + 1]] == e.value
  {
    var e, s := l.entries[i], l.shared[i];
    var d, rest := e.key[s..] + e.value, data[l.starts[i + 1]..end];
    var header := PutVarint(s) + (PutVarint(|e.key| - s) + PutVarint(|e.value|));
    HeaderAndRest(PutVarint(s), PutVarint(|e.key| - s), PutVarint(|e.value|), d);
    assert |header| > 0 by {
      FirstByte(s);
    }
    at := l.starts[i] + |header|;
    TwoParts(data, l.starts[i], l.starts[i + 1], end, header, d);
    EntryRoundTrip(s, e, rest);
    Pieces(data, at, l.starts[i + 1], end, e.key[s..], e.value);
  }

  lemma HeaderAndRest(a: Bytes, b: Bytes, c: Bytes, d: Bytes)
    ensures a + (b + (c + d)) == a + (b + c) + d
  {
  }

  lemma TwoParts(data: Bytes, from: nat, to_: nat, end: nat, a: Bytes, b: Bytes)
    requires from <= to_ <= end <= |data| && data[from..to_] == a + b
    ensures from + |a| + |b| == to_ && data[from + |a|..to_] == b
    ensures data[from + |a|..end] == b + data[to_..end] && data[from..end] == a + b + data[to_..end]
  {
    var whole := data[from..to_];
    assert whole[|a|..] == b;
    assert data[from + |a|..to_] == whole[|a|..];
    assert data[from + |a|..end] == b + data[to_..end];
  }

  lemma Pieces(data: Bytes, from: nat, to_: nat, end: nat, a: Bytes, b: Bytes)
    requires from <= to_ <= end <= |data| && data[from..to_] == a + b
    ensures from + |a| + |b| == to_ && data[from..end][..|a|] == a && data[from + |a|..to_] == b
  {
    TwoParts(data, from, to_, end, a, b);
    assert (a + b + data[to_..end])[..|a|] == a;
  }

  /** A parsed entry leaves the iterator ready for the next one. */
  lemma NextFollows(data: Bytes, end: nat, l: Layout, i: nat)
    requires EntriesLaidOut(data, end, l) && i < |l.entries|
    ensures i + 1 < |l.entries| ==>
              && EntryLaidOut(data, end, l, i + 1)
              && l.shared[i + 1] <= |l.entries[i].key|
                && l.entries[i].key[..l.shared[i + 1]] == l.entries[i + 1].key[..l.shared[i + 1]]
  {
    assert i + 1 < |l.entries| ==> EntryLaidOut(data, end, l, i + 1);
  }
}
