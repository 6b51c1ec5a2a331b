module BlockBuilders {
  import opened Coding
  import opened BlockFormat

  /** Only the last restart point can be right at the end. */
  lemma {:induction false} LastFirst(firsts: seq<nat>, n: nat)
    requires |firsts| > 0 && forall r :: 0 < r < |firsts| ==> firsts[r - 1] < firsts[r] <= n
    ensures forall r :: 0 <= r < |firsts| - 1 ==> firsts[r] < n
  {
    forall r | 0 <= r < |firsts| - 1 ensures firsts[r] < n {
      assert firsts[r] < firsts[r + 1];
    }
  }

  /** The keys have this much of a prefix in common, and no more. */
  ghost predicate IsLongestShared(a: Bytes, b: Bytes, n: nat) {
    n <= |a| && n <= |b| && a[..n] == b[..n] && (n < |a| && n < |b| ==> a[n] != b[n])
  }

  class BlockBuilder {
    const interval: nat
    var buffer: Bytes
    var restarts: seq<nat>
    var counter: nat
    var lastKey: Bytes
    ghost var layout: Layout

    ghost predicate Valid() reads this {
      && interval >= 1 && EntriesLaidOut(buffer, |buffer|, layout) && RestartsLaidOut(layout)
      && |restarts| == |layout.firsts|
      && (forall r :: 0 <= r < |restarts| ==>
            layout.firsts[r] < |layout.starts| && restarts[r] == layout.starts[layout.firsts[r]])
      && lastKey == (if layout.entries == [] then [] else layout.entries[|layout.entries| - 1].key)
      && counter == |layout.entries| - layout.firsts[|layout.firsts| - 1] <= interval
    }

    constructor (interval: nat)
      requires interval >= 1
      ensures Valid() && layout.entries == []
    {
      this.interval := interval;
      buffer, restarts, counter, lastKey := [], [0], 0, [];
      layout := Layout([], [0], [], [0]);
    }

    /** How much of the key repeats the one before. */
    method SharedWithLast(key: Bytes) returns (shared: nat)
      ensures IsLongestShared(lastKey, key, shared)
    {
      shared := 0;
      while shared < |lastKey| && shared < |key| && lastKey[shared] == key[shared]
        invariant shared <= |key| && shared <= |lastKey| && lastKey[..shared] == key[..shared]
      {
        shared := shared + 1;
      }
    }

    method Add(key: Bytes, value: Bytes)
      requires Valid() && SmallEntry(KeyValue(key, value))
      modifies this
      ensures Valid() && layout.entries == old(layout.entries) + [KeyValue(key, value)] && counter <= interval
      ensures layout.shared[..|old(layout.shared)|] == old(layout.shared)
      ensures if old(counter) < interval then
          layout.firsts == old(layout.firsts)
            && IsLongestShared(old(lastKey), key, layout.shared[|old(layout.entries)|])
        else
          layout.firsts == old(layout.firsts) + [|old(layout.entries)|] && layout.shared[|old(layout.entries)|] == 0
    {
      var shared := 0;
      if counter < interval {
        shared := SharedWithLast(key);
      } else {
        restarts := restarts + [|buffer|];
        WithFirsts(buffer, |buffer|, layout, layout.firsts + [|layout.entries|]);
        layout := layout.(firsts := layout.firsts + [|layout.entries|]);
        counter := 0;
      }
      assert lastKey[..0] == key[..0];
      AppendEntry(shared, key, value);
    }

    method AppendEntry(shared: nat, key: Bytes, value: Bytes)
      requires interval >= 1 && EntriesLaidOut(buffer, |buffer|, layout) && |restarts| == |layout.firsts| > 0
        && layout.firsts[0] == 0
      requires forall r :: 0 < r < |layout.firsts| ==> layout.firsts[r - 1] < layout.firsts[r] <= |layout.entries|
      requires forall r :: 0 <= r < |layout.firsts| && layout.firsts[r] < |layout.entries| ==>
        layout.shared[layout.firsts[r]] == 0
      requires forall r :: 0 <= r < |restarts| ==>
        layout.firsts[r] < |layout.starts| && restarts[r] == layout.starts[layout.firsts[r]]
      requires lastKey == if layout.entries == [] then [] else layout.entries[|layout.entries| - 1].key
      requires counter == |layout.entries| - layout.firsts[|layout.firsts| - 1] < interval
      requires SmallEntry(KeyValue(key, value)) && shared <= |key| && shared <= |lastKey|
        && lastKey[..shared] == key[..shared]
      requires counter == 0 ==> shared == 0
      modifies this
      ensures Valid() && layout.entries == old(layout.entries) + [KeyValue(key, value)]
      ensures layout.firsts == old(layout.firsts) && layout.shared == old(layout.shared) + [shared]
    {
      ghost var e := KeyValue(key, value);
      LastFirst(layout.firsts, |layout.entries|);
      EntryAppended(buffer, layout, e, shared);
      layout := WithEntry(layout, e, shared, |buffer + EncodeEntry(shared, e)|);
      buffer := buffer + EncodeEntry(shared, KeyValue(key, value));
      assert lastKey[..shared] + key[shared..] == key;
      lastKey := lastKey[..shared] + key[shared..];
      counter := counter + 1;
    }

    method Finish() returns (contents: Bytes)
      requires Valid() && |buffer| + 4 * (|restarts| + 1) < UINT32_LIMIT
      ensures IsBlock(contents, |buffer|, layout)
    {
      contents := buffer + FixedAll(restarts) + PutFixed(|restarts|, 4);
      MoreBehind(buffer, |buffer|, layout, FixedAll(restarts));
      MoreBehind(buffer + FixedAll(restarts), |buffer|, layout, PutFixed(|restarts|, 4));
      forall r | 0 <= r < |restarts| ensures RestartAt(contents, |buffer|, layout, r) {
        FixedAt(restarts, r);
        assert contents[|buffer| + 4 * r..|buffer| + 4 * r + 4] == FixedAll(restarts)[4 * r..4 * r + 4];
      }
      assert contents[|buffer| + 4 * |restarts|..] == PutFixed(|restarts|, 4);
    }
  }
}
