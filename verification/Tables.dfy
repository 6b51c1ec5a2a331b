module Tables {
  import opened DbFormat
  import opened Coding
  import opened Comparator
  import opened TableKeys
  import opened FilterBlocks

  datatype Item = Item(key: TableKey, value: Bytes)

  /** An entry of the index block: a separator and where its data block begins. */
  datatype IndexEntry = IndexEntry(separator: TableKey, offset: nat)

  const BLOCK_TRAILER_SIZE := 5

  /** A finished table: the index, the blocks by offset, and the filters if there is a policy. */
  datatype Table = Table(index: seq<IndexEntry>, blocks: map<nat, seq<Item>>, policy: Option<Policy>, filters: Contents)

  ghost predicate Increasing(items: seq<Item>) {
    forall i, j :: 0 <= i < j < |items| ==> KeyLess(items[i].key, items[j].key)
  }

  function Concat(blocks: seq<seq<Item>>): seq<Item> {
    if blocks == [] then [] else Concat(blocks[..|blocks| - 1]) + blocks[|blocks| - 1]
  }

  /** Block i as the index leads to it. */
  ghost predicate BlockIndexed(index: seq<IndexEntry>, blocks: map<nat, seq<Item>>, list: seq<seq<Item>>, i: nat)
    requires i < |list| && i < |index|
  {
    && list[i] != [] && index[i].offset in blocks && blocks[index[i].offset] == list[i]
    && IsSeparator(list[i][|list[i]| - 1].key, index[i].separator)
    && (i + 1 < |list| && list[i + 1] != [] ==>
        EndsBefore(index[i].separator, list[i][|list[i]| - 1].key, list[i + 1][0].key))
  }

  /** No filter denies a user key of its block. */
  ghost predicate FilterGood(t: Table, list: seq<seq<Item>>) {
    t.policy.Some? && |t.index| == |list| ==>
      forall i, j :: 0 <= i < |list| && 0 <= j < |list[i]| ==>
        FilterBlocks.KeyMayMatch(t.policy.value, t.filters, t.index[i].offset, list[i][j].key.user)
  }

  /** The table holds the items of these blocks. */
  ghost predicate Holds(t: Table, list: seq<seq<Item>>) {
    && |t.index| == |list| && Increasing(Concat(list)) && FilterGood(t, list)
    && forall i :: 0 <= i < |list| ==> BlockIndexed(t.index, t.blocks, list, i)
  }

  function Start(list: seq<seq<Item>>, b: nat): nat
    requires b <= |list|
  {
    |Concat(list[..b])|
  }

  /** Item j of block b, in the list of all. */
  lemma {:induction false} InConcat(list: seq<seq<Item>>, b: nat)
    requires b < |list|
    ensures Start(list, b) + |list[b]| == Start(list, b + 1) <= |Concat(list)|
    ensures Concat(list)[Start(list, b)..Start(list, b + 1)] == list[b]
    decreases |list|
  {
    var n := |list| - 1;
    assert list[..b + 1][..b] == list[..b];
    if b < n {
      InConcat(list[..n], b);
      assert list[..n][..b] == list[..b] && list[..n][..b + 1] == list[..b + 1];
      assert Concat(list)[Start(list, b)..Start(list, b + 1)] == Concat(list[..n])[Start(list, b)..Start(list, b + 1)];
    } else {
      assert list[..b + 1] == list;
    }
  }

  /** The first item at or after k. */
  ghost predicate IsFirstFrom(items: seq<Item>, k: TableKey, n: nat) {
    && n <= |items| && (forall i :: 0 <= i < n ==> KeyLess(items[i].key, k))
    && forall i :: n <= i < |items| ==> !KeyLess(items[i].key, k)
  }

  method SeekBlock(items: seq<Item>, k: TableKey) returns (n: nat)
    requires Increasing(items)
    ensures IsFirstFrom(items, k, n)
  {
    n := 0;
    while n < |items| && KeyLess(items[n].key, k)
      invariant n <= |items| && forall i :: 0 <= i < n ==> KeyLess(items[i].key, k)
    {
      n := n + 1;
    }
    forall i | n <= i < |items| ensures !KeyLess(items[i].key, k) {
      KeyOrder(items[n].key, items[i].key, k);
    }
  }

  method SeekIndex(index: seq<IndexEntry>, k: TableKey) returns (b: nat)
    ensures b <= |index| && (forall i :: 0 <= i < b ==> KeyLess(index[i].separator, k))
    ensures b < |index| ==> !KeyLess(index[b].separator, k)
  {
    b := 0;
    while b < |index| && KeyLess(index[b].separator, k)
      invariant b <= |index| && forall i :: 0 <= i < b ==> KeyLess(index[i].separator, k)
    {
      b := b + 1;
    }
  }

  lemma SubIncreasing(items: seq<Item>, from: nat, to_: nat)
    requires Increasing(items) && from <= to_ <= |items|
    ensures Increasing(items[from..to_])
  {
  }

  /** All items of the blocks that the index search passed by are before k. */
  lemma PassedBlocks(t: Table, list: seq<seq<Item>>, k: TableKey, b: nat)
    requires Holds(t, list) && b <= |list| && forall i :: 0 <= i < b ==> KeyLess(t.index[i].separator, k)
    ensures Start(list, b) <= |Concat(list)| && forall i :: 0 <= i < Start(list, b) ==> KeyLess(Concat(list)[i].key, k)
  {
    if b > 0 {
      assert BlockIndexed(t.index, t.blocks, list, b - 1);
      InConcat(list, b - 1);
      var items, last := Concat(list), list[b - 1][|list[b - 1]| - 1];
      assert items[Start(list, b) - 1] == items[Start(list, b - 1)..Start(list, b)][|list[b - 1]| - 1] == last;
      assert !KeyLess(t.index[b - 1].separator, last.key) by {
        LessIsTotal(last.key.user, t.index[b - 1].separator.user, last.key.user);
      }
      KeyOrder(t.index[b - 1].separator, last.key, k);
      KeyOrder(last.key, t.index[b - 1].separator, k);
      forall i | 0 <= i < Start(list, b) ensures KeyLess(items[i].key, k) {
        KeyOrder(items[i].key, last.key, k);
      }
    }
  }

  /** Between the last item of a block and its separator there is no key of a user key that comes later. */
  lemma GapHasNoUserKey(last: TableKey, separator: TableKey, k: TableKey, next: TableKey)
    requires KeyLess(last, k) && !KeyLess(separator, k) && IsSeparator(last, separator)
      && EndsBefore(separator, last, next)
    requires k.tag <= MAX_TAG
    ensures next.user != k.user
  {
    KeyOrder(last, k, separator);
    LessIsTotal(separator.user, next.user, next.user);
  }

  lemma WithinSlice(items: seq<Item>, start: nat, slice: seq<Item>)
    requires start + |slice| <= |items| && items[start..start + |slice|] == slice
    ensures forall i :: start <= i < start + |slice| ==> items[i] == slice[i - start]
    ensures forall j :: 0 <= j < |slice| ==> items[start + j] == slice[j]
  {
    forall i | start <= i < start + |slice| ensures items[i] == slice[i - start] {
      assert items[start..start + |slice|][i - start] == slice[i - start];
    }
  }

  /** Where the search leads: the block's own first item at or after k is the first of all, or it has
      none and the next item of all is of another user key. */
  lemma BlockDecides(t: Table, list: seq<seq<Item>>, k: TableKey, b: nat, n: nat)
    requires Holds(t, list) && b < |list| && (forall i :: 0 <= i < b ==> KeyLess(t.index[i].separator, k))
    requires !KeyLess(t.index[b].separator, k) && IsFirstFrom(list[b], k, n) && k.tag <= MAX_TAG
    ensures var at := Start(list, b) + n;
            && IsFirstFrom(Concat(list), k, at) && (n < |list[b]| ==>
                                                    at < |Concat(list)| && Concat(list)[at] == list[b][n])
            && (n == |list[b]| && at < |Concat(list)| ==> Concat(list)[at].key.user != k.user)
  {
    var items, start, at := Concat(list), Start(list, b), Start(list, b) + n;
    PassedBlocks(t, list, k, b);
    InConcat(list, b);
    assert BlockIndexed(t.index, t.blocks, list, b);
    WithinSlice(items, start, list[b]);
    if n == |list[b]| && at < |items| {
      NextBlockIsPast(t, list, k, b);
    }
    AllAfter(items, k, at);
  }

  lemma AllAfter(items: seq<Item>, k: TableKey, at: nat)
    requires Increasing(items) && (at < |items| ==> !KeyLess(items[at].key, k))
    ensures forall i :: at <= i < |items| ==> !KeyLess(items[i].key, k)
  {
    forall i | at <= i < |items| ensures !KeyLess(items[i].key, k) {
      KeyOrder(items[at].key, items[i].key, k);
    }
  }

  lemma NextBlockIsPast(t: Table, list: seq<seq<Item>>, k: TableKey, b: nat)
    requires Holds(t, list) && b < |list| && !KeyLess(t.index[b].separator, k) && k.tag <= MAX_TAG
    requires list[b] != [] && KeyLess(list[b][|list[b]| - 1].key, k) && Start(list, b + 1) < |Concat(list)|
    ensures var e := Concat(list)[Start(list, b + 1)]; !KeyLess(e.key, k) && e.key.user != k.user
  {
    assert BlockIndexed(t.index, t.blocks, list, b);
    assert list[..|list|] == list;
    assert BlockIndexed(t.index, t.blocks, list, b + 1);
    InConcat(list, b + 1);
    var next := list[b + 1][0];
    assert Concat(list)[Start(list, b + 1)] == Concat(list)[Start(list, b + 1)..Start(list, b + 2)][0] == next;
    GapHasNoUserKey(list[b][|list[b]| - 1].key, t.index[b].separator, k, next.key);
    KeyOrder(t.index[b].separator, next.key, k);
    KeyOrder(next.key, k, t.index[b].separator);
  }

  /** Table::InternalGet: what the saver is handed, if anything. */
  method InternalGet(t: Table, k: TableKey, ghost list: seq<seq<Item>>, ghost at: nat) returns (saved: Option<Item>)
    requires Holds(t, list) && IsFirstFrom(Concat(list), k, at) && k.tag <= MAX_TAG
    ensures saved.Some? ==> at < |Concat(list)| && saved.value == Concat(list)[at]
    ensures at < |Concat(list)| && Concat(list)[at].key.user == k.user ==> saved == Some(Concat(list)[at])
  {
    var b := SeekIndex(t.index, k);
    if b == |t.index| {
      PassedBlocks(t, list, k, b);
      assert list[..b] == list;
      return None;
    }
    var handle := t.index[b].offset;
    assert BlockIndexed(t.index, t.blocks, list, b);
    InConcat(list, b);
    SubIncreasing(Concat(list), Start(list, b), Start(list, b + 1));
    ghost var n0 := FirstFromExists(list[b], k);
    BlockDecides(t, list, k, b, n0);
    FirstIsUnique(Concat(list), k, at, Start(list, b) + n0);
    if t.policy.Some? && !FilterBlocks.KeyMayMatch(t.policy.value, t.filters, handle, k.user) {
      return None;
    }
    var n := SeekBlock(t.blocks[handle], k);
    FirstIsUnique(list[b], k, n, n0);
    saved := if n < |t.blocks[handle]| then Some(t.blocks[handle][n]) else None;
  }

  lemma FirstIsUnique(items: seq<Item>, k: TableKey, m: nat, n: nat)
    requires IsFirstFrom(items, k, m) && IsFirstFrom(items, k, n)
    ensures m == n
  {
    assert m < |items| ==> (KeyLess(items[m].key, k) <==> m < n);
    assert n < |items| ==> (KeyLess(items[n].key, k) <==> n < m);
  }

  lemma FirstFromExists(items: seq<Item>, k: TableKey) returns (n: nat)
    requires Increasing(items)
    ensures IsFirstFrom(items, k, n)
  {
    n := 0;
    while n < |items| && KeyLess(items[n].key, k)
      invariant n <= |items| && forall i :: 0 <= i < n ==> KeyLess(items[i].key, k)
    {
      n := n + 1;
    }
    forall i | n <= i < |items| ensures !KeyLess(items[i].key, k) {
      KeyOrder(items[n].key, items[i].key, k);
    }
  }
}
