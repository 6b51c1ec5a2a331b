// An iterator over blocks that an index leads to (table/two_level_iterator.cc).

module TwoLevelIterators {
  import opened DbFormat
  import opened TableKeys
  import opened Tables

  /** Every block's items are at or before its separator, and those of later blocks after it. */
  ghost predicate Separated(blocks: seq<seq<Item>>, separators: seq<TableKey>) {
    && |separators| == |blocks|
    && (forall i, j :: 0 <= i < |blocks| && 0 <= j < |blocks[i]| ==> !KeyLess(separators[i], blocks[i][j].key))
    && forall i, b, j :: 0 <= i < b < |blocks| && 0 <= j < |blocks[b]| ==> KeyLess(separators[i], blocks[b][j].key)
  }

  lemma ItemAt(blocks: seq<seq<Item>>, i: nat, j: nat)
    requires i < |blocks| && j < |blocks[i]|
    ensures Start(blocks, i) + j < Start(blocks, i + 1) <= |Concat(blocks)|
      && Concat(blocks)[Start(blocks, i) + j] == blocks[i][j]
  {
    InConcat(blocks, i);
    WithinSlice(Concat(blocks), Start(blocks, i), blocks[i]);
  }

  lemma Ends(blocks: seq<seq<Item>>)
    ensures Start(blocks, 0) == 0 && Start(blocks, |blocks|) == |Concat(blocks)|
  {
    assert blocks[..0] == [] && blocks[..|blocks|] == blocks;
  }

  class TwoLevelIterator {
    const blocks: seq<seq<Item>>
    const separators: seq<TableKey>
    /** Where index_iter_ is; |blocks| if nowhere. */
    var indexPos: nat
    /** Where data_iter_ is in the block at indexPos, if there is one; past its items if nowhere. */
    var dataPos: Option<nat>

    predicate Good() reads this {
      && indexPos <= |blocks| && (dataPos.Some? ==> indexPos < |blocks| && dataPos.value <= |blocks[indexPos]|)
    }

    predicate Valid()
      reads this
      requires Good()
    {
      dataPos.Some? && dataPos.value < |blocks[indexPos]|
    }

    /** The place in the concatenation of all blocks. */
    ghost function Position(): nat
      reads this
      requires Good() && Valid()
    {
      Start(blocks, indexPos) + dataPos.value
    }

    /** Whether the iterator is at place n of all items, or at none if n is past the last. */
    ghost predicate At(n: nat) reads this {
      Good() && (Valid() <==> n < |Concat(blocks)|) && (Valid() ==> Position() == n)
    }

    function Current(): Item
      reads this
      requires Good() && Valid()
    {
      blocks[indexPos][dataPos.value]
    }

    lemma CurrentIsAt()
      requires Good() && Valid()
      ensures Position() < |Concat(blocks)| && Current() == Concat(blocks)[Position()]
    {
      ItemAt(blocks, indexPos, dataPos.value);
    }

    constructor (blocks: seq<seq<Item>>, separators: seq<TableKey>)
      requires Separated(blocks, separators)
      ensures Good() && !Valid() && this.blocks == blocks && this.separators == separators
    {
      this.blocks, this.separators := blocks, separators;
      indexPos, dataPos := |blocks|, None;
    }

    /** Past blocks without items, to the first item of the next one. */
    method SkipEmptyDataBlocksForward(ghost n: nat)
      requires Good() && (indexPos < |blocks| ==> dataPos.Some? && n == Start(blocks, indexPos) + dataPos.value)
      requires indexPos == |blocks| ==> n == |Concat(blocks)|
      modifies this
      ensures At(n)
    {
      Ends(blocks);
      while !Valid()
        invariant Good() && (indexPos < |blocks| ==> dataPos.Some? && n == Start(blocks, indexPos) + dataPos.value)
        invariant indexPos == |blocks| ==> n == |Concat(blocks)|
        decreases |blocks| - indexPos
      {
        if indexPos == |blocks| {
          dataPos := None;
          return;
        }
        InConcat(blocks, indexPos);
        indexPos := indexPos + 1;
        dataPos := if indexPos < |blocks| then Some(0) else None;
      }
      CurrentIsAt();
    }

    /** Past blocks without items, to the last item of the one before. n counts the items left. */
    method SkipEmptyDataBlocksBackward(ghost n: nat)
      requires Good() && (indexPos < |blocks| ==> dataPos.Some?)
      requires indexPos == |blocks| ==> n == 0
      requires indexPos < |blocks| ==> n == Start(blocks, indexPos) + if Valid() then dataPos.value + 1 else 0
      modifies this
      ensures Good() && (Valid() <==> n > 0) && (Valid() ==> Position() == n - 1)
    {
      Ends(blocks);
      while !Valid()
        invariant Good() && (indexPos < |blocks| ==> dataPos.Some?)
        invariant indexPos == |blocks| ==> n == 0
        invariant indexPos < |blocks| ==> n == Start(blocks, indexPos) + if Valid() then dataPos.value + 1 else 0
        decreases if indexPos < |blocks| then indexPos + 1 else 0
      {
        if indexPos == |blocks| {
          dataPos := None;
          return;
        }
        if indexPos == 0 {
          indexPos := |blocks|;
          dataPos := None;
        } else {
          indexPos := indexPos - 1;
          InConcat(blocks, indexPos);
          dataPos := Some(if blocks[indexPos] == [] then 0 else |blocks[indexPos]| - 1);
        }
      }
    }

    method SeekToFirst()
      requires Good()
      modifies this
      ensures At(0)
    {
      indexPos := 0;
      dataPos := if |blocks| > 0 then Some(0) else None;
      Ends(blocks);
      SkipEmptyDataBlocksForward(0);
    }

    method SeekToLast()
      requires Good()
      modifies this
      ensures Good() && (Valid() <==> Concat(blocks) != []) && (Valid() ==> Position() == |Concat(blocks)| - 1)
    {
      indexPos := if blocks == [] then 0 else |blocks| - 1;
      dataPos := if blocks == [] then None else Some(if blocks[indexPos] == [] then 0 else |blocks[indexPos]| - 1);
      Ends(blocks);
      if blocks != [] {
        InConcat(blocks, indexPos);
      }
      SkipEmptyDataBlocksBackward(|Concat(blocks)|);
    }

    method Next()
      requires Good() && Valid()
      modifies this
      ensures At(old(Position()) + 1)
    {
      ghost var n := Position() + 1;
      CurrentIsAt();
      dataPos := Some(dataPos.value + 1);
      SkipEmptyDataBlocksForward(n);
    }

    method Prev()
      requires Good() && Valid()
      modifies this
      ensures Good() && (Valid() <==> old(Position()) > 0) && (Valid() ==> Position() == old(Position()) - 1)
    {
      ghost var n := Position();
      dataPos := Some(if dataPos.value == 0 then |blocks[indexPos]| else dataPos.value - 1);
      SkipEmptyDataBlocksBackward(n);
    }

    /** To the first item at or after k of all. */
    method Seek(k: TableKey, ghost n: nat)
      requires Good() && Separated(blocks, separators) && Increasing(Concat(blocks))
        && IsFirstFrom(Concat(blocks), k, n)
      modifies this
      ensures At(n)
    {
      indexPos := 0;
      while indexPos < |separators| && KeyLess(separators[indexPos], k)
        invariant indexPos <= |separators| && forall i :: 0 <= i < indexPos ==> KeyLess(separators[i], k)
      {
        indexPos := indexPos + 1;
      }
      if indexPos < |blocks| {
        InConcat(blocks, indexPos);
        SubIncreasing(Concat(blocks), Start(blocks, indexPos), Start(blocks, indexPos + 1));
        var j := SeekBlock(blocks[indexPos], k);
        dataPos := Some(j);
        SoughtIs(blocks, separators, k, indexPos, j, n);
      } else {
        dataPos := None;
        AllPassed(blocks, separators, k, indexPos);
        Ends(blocks);
        FirstIsUnique(Concat(blocks), k, n, |Concat(blocks)|);
      }
      SkipEmptyDataBlocksForward(n);
    }
  }

  lemma {:induction false} AllPassed(blocks: seq<seq<Item>>, separators: seq<TableKey>, k: TableKey, b: nat)
    requires Separated(blocks, separators) && b <= |blocks| && forall i :: 0 <= i < b ==> KeyLess(separators[i], k)
    ensures Start(blocks, b) <= |Concat(blocks)|
      && forall i :: 0 <= i < Start(blocks, b) ==> KeyLess(Concat(blocks)[i].key, k)
  {
    if b > 0 {
      AllPassed(blocks, separators, k, b - 1);
      InConcat(blocks, b - 1);
      forall i | Start(blocks, b - 1) <= i < Start(blocks, b) ensures KeyLess(Concat(blocks)[i].key, k) {
        var j := i - Start(blocks, b - 1);
        ItemAt(blocks, b - 1, j);
        KeyOrder(separators[b - 1], blocks[b - 1][j].key, k);
        KeyOrder(blocks[b - 1][j].key, separators[b - 1], k);
      }
    }
  }

  lemma SoughtIs(blocks: seq<seq<Item>>, separators: seq<TableKey>, k: TableKey, b: nat, j: nat, n: nat)
    requires Separated(blocks, separators) && Increasing(Concat(blocks)) && IsFirstFrom(Concat(blocks), k, n)
    requires b < |blocks| && (forall i :: 0 <= i < b ==> KeyLess(separators[i], k)) && !KeyLess(separators[b], k)
    requires IsFirstFrom(blocks[b], k, j)
    ensures n == Start(blocks, b) + j
  {
    var items, at := Concat(blocks), Start(blocks, b) + j;
    AllPassed(blocks, separators, k, b);
    InConcat(blocks, b);
    forall i | 0 <= i < at ensures KeyLess(items[i].key, k) {
      if i >= Start(blocks, b) {
        ItemAt(blocks, b, i - Start(blocks, b));
      }
    }
    if j < |blocks[b]| {
      ItemAt(blocks, b, j);
    } else if at < |items| {
      LaterItem(blocks, separators, k, b, at);
    }
    AllAfter(items, k, at);
    FirstIsUnique(items, k, n, at);
  }

  /** An item past block b is past its separator. */
  lemma LaterItem(blocks: seq<seq<Item>>, separators: seq<TableKey>, k: TableKey, b: nat, n: nat)
    requires Separated(blocks, separators) && b < |blocks| && !KeyLess(separators[b], k)
      && Start(blocks, b + 1) <= n < |Concat(blocks)|
    ensures !KeyLess(Concat(blocks)[n].key, k)
  {
    var c := BlockOf(blocks, n);
    if c <= b {
      StartsGrow(blocks, c + 1, b + 1);
    }
    assert c > b;
    InConcat(blocks, c);
    ItemAt(blocks, c, n - Start(blocks, c));
    var e := blocks[c][n - Start(blocks, c)];
    KeyOrder(separators[b], e.key, k);
    KeyOrder(e.key, k, separators[b]);
  }

  lemma {:induction false} StartsGrow(blocks: seq<seq<Item>>, i: nat, b: nat)
    requires i <= b <= |blocks|
    ensures Start(blocks, i) <= Start(blocks, b) <= |Concat(blocks)|
    decreases b
  {
    Ends(blocks);
    if i < b {
      StartsGrow(blocks, i, b - 1);
      InConcat(blocks, b - 1);
    } else if b > 0 {
      InConcat(blocks, b - 1);
    }
  }

  /** The block that place n of all items falls into. */
  lemma {:induction false} BlockOf(blocks: seq<seq<Item>>, n: nat) returns (b: nat)
    requires n < |Concat(blocks)|
    ensures b < |blocks| && Start(blocks, b) <= n < Start(blocks, b + 1)
  {
    Ends(blocks);
    b := 0;
    InConcatAll(blocks, 0);
    while n >= Start(blocks, b + 1)
      invariant b < |blocks| && Start(blocks, b) <= n
      decreases |blocks| - b
    {
      InConcatAll(blocks, b + 1);
      b := b + 1;
    }
  }

  lemma InConcatAll(blocks: seq<seq<Item>>, b: nat)
    requires b <= |blocks| && Concat(blocks) != []
    ensures b < |blocks| || Start(blocks, b) == |Concat(blocks)|
  {
    Ends(blocks);
  }

  function Separators(index: seq<IndexEntry>): seq<TableKey> {
    seq(|index|, i requires 0 <= i < |index| => index[i].separator)
  }

  /** The index of a built table separates its blocks, so Table::NewIterator, which is this iterator
      over them, goes through exactly the items that were added. */
  lemma TableIsSeparated(t: Table, list: seq<seq<Item>>)
    requires Holds(t, list)
    ensures Separated(list, Separators(t.index))
  {
    var items := Concat(list);
    forall i: nat, j: nat | i < |list| && j < |list[i]| ensures !KeyLess(t.index[i].separator, list[i][j].key) {
      assert BlockIndexed(t.index, t.blocks, list, i);
      var last := |list[i]| - 1;
      ItemAt(list, i, j);
      ItemAt(list, i, last);
      assert j < last ==> KeyLess(list[i][j].key, list[i][last].key);
      KeyOrder(list[i][j].key, list[i][last].key, t.index[i].separator);
      KeyOrder(t.index[i].separator, list[i][j].key, list[i][last].key);
      KeyOrder(list[i][last].key, t.index[i].separator, list[i][last].key);
    }
    forall i: nat, b: nat, j: nat | i < b < |list| && j < |list[b]|
      ensures KeyLess(t.index[i].separator, list[b][j].key) {
      assert BlockIndexed(t.index, t.blocks, list, i) && BlockIndexed(t.index, t.blocks, list, i + 1);
      ItemAt(list, i + 1, 0);
      ItemAt(list, b, j);
      StartsGrow(list, i + 1, b);
      KeyOrder(t.index[i].separator, list[i + 1][0].key, list[b][j].key);
    }
  }
}
