module TableBuilders {
  import opened DbFormat
  import opened Coding
  import opened TableKeys
  import opened FilterBlocks
  import opened Tables

  function Last(items: seq<Item>): TableKey
    requires items != []
  {
    items[|items| - 1].key
  }

  /** The blocks written so far and where they are; the one being filled comes last. */
  ghost predicate BlocksWritten(blocks: map<nat, seq<Item>>, list: seq<seq<Item>>, offsets: seq<nat>, offset: nat) {
    && |offsets| == |list|
    && forall i :: 0 <= i < |list| ==> list[i] != [] && offsets[i] < offset && offsets[i] in blocks
                                       && blocks[offsets[i]] == list[i]
  }

  /** Index entries lead to their blocks and end before the blocks that follow. */
  ghost predicate IndexGood(index: seq<IndexEntry>, list: seq<seq<Item>>, offsets: seq<nat>, current: seq<Item>)
    requires |offsets| == |list| && forall i :: 0 <= i < |list| ==> list[i] != []
  {
    && |index| <= |list|
    && forall i :: 0 <= i < |index| ==>
      && index[i].offset == offsets[i] && IsSeparator(Last(list[i]), index[i].separator)
      && (i + 1 < |list| ==> EndsBefore(index[i].separator, Last(list[i]), list[i + 1][0].key))
      && (i + 1 == |list| && current != [] ==> EndsBefore(index[i].separator, Last(list[i]), current[0].key))
  }

  /** Every user key has been given to the filter of its block. */
  ghost predicate KeysAdded(added: set<(nat, Bytes)>, list: seq<seq<Item>>, offsets: seq<nat>, current: seq<Item>,
                            offset: nat)
    requires |offsets| == |list|
  {
    && (forall i, j :: 0 <= i < |list| && 0 <= j < |list[i]| ==> (offsets[i], list[i][j].key.user) in added)
    && forall j :: 0 <= j < |current| ==> (offset, current[j].key.user) in added
  }

  lemma ConcatOneMore(list: seq<seq<Item>>, block: seq<Item>)
    ensures Concat(list + [block]) == Concat(list) + block == Concat(list + [block]) + []
  {
    assert (list + [block])[..|list|] == list;
  }

  lemma {:induction false} LastOfConcat(list: seq<seq<Item>>)
    requires forall i :: 0 <= i < |list| ==> list[i] != []
    ensures list == [] <==> Concat(list) == []
    ensures list != [] ==> Last(Concat(list)) == Last(list[|list| - 1])
  {
  }

  /** How far a table has got: the index entries, the blocks by offset and in order, where each one is, the
      items of the block being filled and its offset, and the keys given to the filter. */
  datatype Progress = Progress(index: seq<IndexEntry>, blocks: map<nat, seq<Item>>, list: seq<seq<Item>>,
                               offsets: seq<nat>,
                               current: seq<Item>, offset: nat, added: set<(nat, Bytes)>)

  ghost predicate Written(p: Progress) {
    && BlocksWritten(p.blocks, p.list, p.offsets, p.offset) && IndexGood(p.index, p.list, p.offsets, p.current)
    && KeysAdded(p.added, p.list, p.offsets, p.current, p.offset)
  }

  function Added(p: Progress, e: Item): Progress {
    p.(current := p.current + [e], added := p.added + {(p.offset, e.key.user)})
  }

  /** One more item in the block being filled; it comes after the last index entry. */
  lemma AddKeepsWritten(p: Progress, e: Item)
    requires Written(p)
    requires p.list != [] && |p.index| == |p.list| && p.current == [] ==>
               EndsBefore(p.index[|p.list| - 1].separator, Last(p.list[|p.list| - 1]), e.key)
    ensures Written(Added(p, e))
  {
    assert (p.current + [e])[0] == if p.current == [] then e else p.current[0];
  }

  function Flushed(p: Progress, next: nat): Progress {
    p.(blocks := p.blocks[p.offset := p.current], list := p.list + [p.current], offsets := p.offsets + [p.offset],
       current := [], offset := next)
  }

  /** The block being filled is written, and an empty one begun behind it. */
  lemma FlushKeepsWritten(p: Progress, next: nat)
    requires Written(p) && p.current != [] && p.offset < next
    ensures Written(Flushed(p, next))
  {
    var q := Flushed(p, next);
    forall i: nat, j: nat | i < |q.list| && j < |q.list[i]| ensures (q.offsets[i], q.list[i][j].key.user) in p.added {
      if i < |p.list| {
        assert (p.offsets[i], p.list[i][j].key.user) in p.added;
      }
    }
  }

  function Indexed(p: Progress, separator: TableKey): Progress
    requires |p.index| < |p.offsets|
  {
    p.(index := p.index + [IndexEntry(separator, p.offsets[|p.index|])])
  }

  /** The index entry for the last block. */
  lemma IndexKeepsWritten(p: Progress, separator: TableKey)
    requires Written(p) && p.current == [] && |p.list| == |p.index| + 1
      && IsSeparator(Last(p.list[|p.index|]), separator)
    ensures Written(Indexed(p, separator))
  {
  }

  lemma FinishedHolds(t: Table, p: Progress)
    requires Written(p) && p.current == [] && t.index == p.index && t.blocks == p.blocks
    requires |t.index| == |p.list| && Increasing(Concat(p.list))
    requires t.policy.Some? ==> forall x :: x in p.added ==>
      FilterBlocks.KeyMayMatch(t.policy.value, t.filters, x.0, x.1)
    ensures Holds(t, p.list)
  {
    if t.policy.Some? {
      forall i: nat, j: nat | i < |p.list| && j < |p.list[i]|
        ensures FilterBlocks.KeyMayMatch(t.policy.value, t.filters, t.index[i].offset, p.list[i][j].key.user)
      {
        assert (p.offsets[i], p.list[i][j].key.user) in p.added;
      }
    }
  }

  class TableBuilder {
    const blockSize: nat
    const policy: Option<Policy>
    /** CurrentSizeEstimate, and the size of a block in the file. */
    const estimate: seq<Item> -> nat
    const fileSize: seq<Item> -> nat
    const filter: FilterBlockBuilder
    var offset: nat
    var dataBlock: seq<Item>
    var pendingIndexEntry: bool
    var pendingOffset: nat
    var lastKey: TableKey
    var index: seq<IndexEntry>
    var blocks: map<nat, seq<Item>>
    ghost var list: seq<seq<Item>>
    ghost var offsets: seq<nat>
    /** All of this at once. */
    ghost var progress: Progress

    /** All items so far. */
    ghost function Items(): seq<Item> reads this {
      Concat(list) + dataBlock
    }

    ghost predicate Follows(p: Progress) reads this, filter {
      p == Progress(index, blocks, list, offsets, dataBlock, offset, filter.added)
    }

    ghost predicate Valid() reads this, filter {
      && Written(progress) && Follows(progress)
      && |list| == |index| + (if pendingIndexEntry then 1 else 0)
      && (pendingIndexEntry ==> dataBlock == [] && pendingOffset == offsets[|list| - 1])
      && Increasing(Items()) && (Items() != [] ==> lastKey == Last(Items()))
      && filter.Valid() && filter.block == offset
      && (policy.Some? ==> filter.policy == policy.value)
    }

    /** Still taking items: a written block waits for its index entry until the next one begins. */
    ghost predicate Open() reads this, filter {
      Valid() && (dataBlock == [] && list != [] ==> pendingIndexEntry)
    }

    lemma LastIsLast()
      requires Valid()
      ensures Items() == [] <==> list == [] && dataBlock == []
      ensures list != [] && dataBlock == [] ==> lastKey == Last(list[|list| - 1])
    {
      LastOfConcat(list);
      assert Concat(list) + [] == Concat(list);
    }

    constructor (blockSize: nat, policy: Option<Policy>, estimate: seq<Item> -> nat, fileSize: seq<Item> -> nat)
      requires policy.Some? ==> NoFalseNegatives(policy.value)
      ensures Open() && Items() == [] && fresh(filter)
    {
      this.blockSize, this.policy, this.estimate, this.fileSize := blockSize, policy, estimate, fileSize;
      filter := new FilterBlockBuilder(if policy.Some? then policy.value else Policy(_ => [], (_, _) => true));
      offset, dataBlock, pendingIndexEntry, pendingOffset := 0, [], false, 0;
      lastKey, index, blocks := TableKey([], 0), [], map[];
      list, offsets, progress := [], [], Progress([], map[], [], [], [], 0, {});
    }

    /** The index entry of the last block waits for the first key of the next. */
    method AddPendingIndexEntry(key: TableKey)
      requires Valid() && pendingIndexEntry && KeyLess(lastKey, key)
      modifies this`index, this`pendingIndexEntry, this`progress
      ensures Valid() && !pendingIndexEntry
      ensures EndsBefore(index[|list| - 1].separator, Last(list[|list| - 1]), key)
    {
      LastIsLast();
      var separator := FindSeparator(lastKey, key);
      IndexKeepsWritten(progress, separator);
      progress := Indexed(progress, separator);
      index := index + [IndexEntry(separator, pendingOffset)];
      pendingIndexEntry := false;
    }

    method Add(key: TableKey, value: Bytes)
      requires Open() && (Items() != [] ==> KeyLess(lastKey, key))
      modifies this, filter
      ensures Open() && Items() == old(Items()) + [Item(key, value)]
    {
      LastIsLast();
      if pendingIndexEntry {
        AddPendingIndexEntry(key);
      }
      AddToBlock(Item(key, value));
      if estimate(dataBlock) >= blockSize {
        Flush();
      }
    }

    method AddToBlock(e: Item)
      requires Valid() && !pendingIndexEntry && (Items() != [] ==> KeyLess(lastKey, e.key))
      requires list != [] && dataBlock == [] ==> EndsBefore(index[|list| - 1].separator, Last(list[|list| - 1]), e.key)
      modifies this`lastKey, this`dataBlock, this`progress, filter
      ensures Valid() && Items() == old(Items()) + [e]
    {
      AddKeepsWritten(progress, e);
      OneMoreItem(Items(), e);
      Associates(Concat(list), dataBlock, [e]);
      PutItem(e);
    }

    method PutItem(e: Item)
      requires Follows(progress) && filter.Valid() && filter.block == offset
      modifies this`lastKey, this`dataBlock, this`progress, filter
      ensures progress == Added(old(progress), e) && Follows(progress) && lastKey == e.key
        && dataBlock == old(dataBlock) + [e]
      ensures filter.Valid() && filter.block == offset
    {
      filter.AddKey(e.key.user);
      lastKey := e.key;
      dataBlock := dataBlock + [e];
      progress := Added(progress, e);
    }

    /** The data block goes to the file, and the next one begins behind it. */
    method Flush()
      requires Open()
      modifies this, filter
      ensures Open() && Items() == old(Items()) && dataBlock == []
    {
      if dataBlock != [] {
        ghost var was := progress;
        ConcatOneMore(list, dataBlock);
        WriteBlock();
        FlushKeepsWritten(was, offset);
        filter.StartBlock(offset);
      }
    }

    method WriteBlock()
      requires Follows(progress) && dataBlock != []
      modifies this
      ensures progress == Flushed(old(progress), offset) && Follows(progress) && offset > old(offset)
      ensures pendingIndexEntry && pendingOffset == old(offset) && lastKey == old(lastKey)
    {
      blocks := blocks[offset := dataBlock];
      pendingOffset := offset;
      offsets := offsets + [offset];
      list := list + [dataBlock];
      offset := offset + fileSize(dataBlock) + BLOCK_TRAILER_SIZE;
      dataBlock := [];
      pendingIndexEntry := true;
      progress := Flushed(progress, offset);
    }

    method Finish() returns (t: Table, ghost written: seq<seq<Item>>)
      requires Open()
      modifies this, filter
      ensures Holds(t, written) && Concat(written) == old(Items())
    {
      Flush();
      assert Concat(list) + [] == Concat(list);
      LastIsLast();
      ghost var p := progress;
      var _, filters := filter.Finish();
      if pendingIndexEntry {
        var separator := FindSuccessor(lastKey);
        IndexKeepsWritten(p, separator);
        p := Indexed(p, separator);
        index := index + [IndexEntry(separator, pendingOffset)];
        pendingIndexEntry := false;
      }
      t := Table(index, blocks, policy, filters);
      written := list;
      FinishedHolds(t, p);
    }
  }

  lemma OneMoreItem(items: seq<Item>, e: Item)
    requires Increasing(items) && (items != [] ==> KeyLess(Last(items), e.key))
    ensures Increasing(items + [e])
  {
    forall i | 0 <= i < |items| ensures KeyLess(items[i].key, e.key) {
      KeyOrder(items[i].key, Last(items), e.key);
    }
  }
}
