/** The list as its one writer uses it. */
module SkipLists {
  import opened DbFormat
  import opened SkipMemory
  import opened SkipInsertion

  class SkipList {
    var nodes: Nodes
    var maxHeight: nat
    ghost var linked: seq<set<nat>>

    ghost predicate Valid() reads this {
      Good(nodes, maxHeight, linked)
    }

    ghost function Entries(): set<Entry>
      reads this
      requires Valid()
    {
      EntriesOf(nodes, linked[0])
    }

    constructor (any: Entry)
      ensures Valid() && Entries() == {}
    {
      nodes := [Node(any, seq(MAX_HEIGHT, _ => 0))];
      maxHeight := 1;
      linked := seq(MAX_HEIGHT, _ => {});
    }

    method FindGreaterOrEqual(target: InternalKey) returns (n: nat, prev: seq<nat>)
      requires Valid()
      ensures n < |nodes| && IsFirstFrom(nodes, linked[0], target, n)
      ensures |prev| == MAX_HEIGHT && forall l :: 0 <= l < maxHeight ==> IsPrev(nodes, l, linked[l], target, prev[l])
    {
      prev := seq(MAX_HEIGHT, _ => 0);
      var x: nat, level: nat := 0, maxHeight - 1;
      assert LevelGood(nodes, level, linked[level]);
      while true
        invariant 0 <= level < maxHeight && |prev| == MAX_HEIGHT && LevelGood(nodes, level, linked[level])
        invariant OnTheWay(nodes, level, linked[level], target, x)
        invariant forall l :: level < l < maxHeight ==> IsPrev(nodes, l, linked[l], target, prev[l])
        decreases level, Ahead(nodes, linked[0], x)
      {
        var next := nodes[x].next[level];
        assert IsSuccessor(nodes, linked[level], x, next);
        if KeyIsAfterNode(nodes, target, next) {
          MoveRight(nodes, maxHeight, linked, level, x);
          x := next;
        } else {
          StopIsPrev(nodes, level, linked[level], target, x);
          prev := prev[level := x];
          if level == 0 {
            StopIsAnswer(nodes, linked[0], target, x);
            return next, prev;
          }
          level := level - 1;
          assert LevelGood(nodes, level, linked[level]);
        }
      }
    }

    /** The last node before the target, or the head. */
    method FindLessThan(target: InternalKey) returns (x: nat)
      requires Valid()
      ensures Allocated(nodes, 0, linked[0]) && IsPrev(nodes, 0, linked[0], target, x)
    {
      x := 0;
      var level: nat := maxHeight - 1;
      assert LevelGood(nodes, level, linked[level]);
      while true
        invariant 0 <= level < maxHeight && LevelGood(nodes, level, linked[level])
        invariant OnTheWay(nodes, level, linked[level], target, x)
        decreases level, Ahead(nodes, linked[0], x)
      {
        var next := nodes[x].next[level];
        assert IsSuccessor(nodes, linked[level], x, next);
        if next == 0 || !Before(nodes[next].entry.key, target) {
          StopIsPrev(nodes, level, linked[level], target, x);
          if level == 0 {
            return;
          }
          level := level - 1;
          assert LevelGood(nodes, level, linked[level]);
        } else {
          MoveRight(nodes, maxHeight, linked, level, x);
          x := next;
        }
      }
    }

    /** The last node, or the head. */
    method FindLast() returns (x: nat)
      requires Valid()
      ensures x == 0 || x in linked[0]
      ensures Allocated(nodes, 0, linked[0]) && x < |nodes| && forall y :: y in linked[0] ==> !Precedes(nodes, x, y)
    {
      x := 0;
      var level: nat := maxHeight - 1;
      assert LevelGood(nodes, level, linked[level]);
      while true
        invariant 0 <= level < maxHeight && LevelGood(nodes, level, linked[level]) && (x == 0 || x in linked[level])
        decreases level, Ahead(nodes, linked[0], x)
      {
        var next := nodes[x].next[level];
        assert IsSuccessor(nodes, linked[level], x, next);
        if next == 0 {
          if level == 0 {
            return;
          }
          level := level - 1;
          assert LevelGood(nodes, level, linked[level]);
        } else {
          MoveRight(nodes, maxHeight, linked, level, x);
          x := next;
        }
      }
    }

    /** The new levels start at the head. */
    method RaiseTo(height: nat, target: InternalKey, prev: seq<nat>) returns (prev': seq<nat>)
      requires Valid() && maxHeight < height <= MAX_HEIGHT && PrevsFrom(nodes, linked, target, prev, 0, maxHeight)
      modifies this`maxHeight
      ensures Valid() && maxHeight == height && PrevsFrom(nodes, linked, target, prev', 0, height)
    {
      RaiseHeight(nodes, maxHeight, linked, height);
      prev' := prev;
      var i := maxHeight;
      while i < height
        invariant maxHeight <= i <= height && PrevsFrom(nodes, linked, target, prev', 0, i)
      {
        prev' := prev'[i := 0];
        i := i + 1;
      }
      maxHeight := height;
    }

    /** RandomHeight chose the height. */
    method Insert(e: Entry, height: nat)
      requires Valid() && 1 <= height <= MAX_HEIGHT
      requires forall d :: d in Entries() ==> d.key != e.key
      modifies this
      ensures Valid() && Entries() == old(Entries()) + {e}
    {
      var _, prev := FindGreaterOrEqual(e.key);
      if height > maxHeight {
        prev := RaiseTo(height, e.key, prev);
      }
      forall y | y in linked[0] ensures nodes[y].entry.key != e.key {
        assert nodes[y].entry in Entries();
      }
      var node := Node(e, seq(height, _ => 0));
      AllocateNode(nodes, maxHeight, linked, node, prev);
      EntriesFrame(nodes, nodes + [node], linked[0]);
      nodes := nodes + [node];
      Link(|nodes| - 1, prev);
    }

    method Link(x: nat, prev: seq<nat>)
      requires Linking(nodes, maxHeight, linked, x, prev, 0) && |nodes[x].next| >= 1
      modifies this`nodes, this`linked
      ensures Valid() && Entries() == old(Entries()) + {old(nodes[x].entry)}
    {
      var i := 0;
      var height := |nodes[x].next|;
      ghost var entries, e := EntriesOf(nodes, linked[0]), nodes[x].entry;
      while i < height
        invariant Linking(nodes, maxHeight, linked, x, prev, i) && nodes[x].entry == e && |nodes[x].next| == height
        invariant EntriesOf(nodes, linked[0]) == entries + if i == 0 then {} else {e}
      {
        LinkAt(x, prev, i);
        i := i + 1;
      }
    }

    method LinkAt(x: nat, prev: seq<nat>, i: nat)
      requires Linking(nodes, maxHeight, linked, x, prev, i) && i < |nodes[x].next|
      modifies this`nodes, this`linked
      ensures Linking(nodes, maxHeight, linked, x, prev, i + 1)
      ensures nodes[x].entry == old(nodes[x].entry) && |nodes[x].next| == old(|nodes[x].next|)
      ensures EntriesOf(nodes, linked[0]) == old(EntriesOf(nodes, linked[0])) + if i == 0 then {nodes[x].entry} else {}
    {
      LinkOnce(nodes, maxHeight, linked, x, prev, i);
      nodes := SetNext(nodes, x, i, nodes[prev[i]].next[i]);
      nodes := SetNext(nodes, prev[i], i, x);
      linked := linked[i := linked[i] + {x}];
    }

    method Contains(key: InternalKey) returns (found: bool)
      requires Valid()
      ensures found <==> exists e :: e in Entries() && e.key == key
    {
      var x, _ := FindGreaterOrEqual(key);
      found := x != 0 && nodes[x].entry.key == key;
      BeforeOrders(key, key, key);
      if found {
        assert nodes[x].entry in Entries();
      }
    }
  }
}
