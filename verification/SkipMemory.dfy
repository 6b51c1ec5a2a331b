// The memtable's skip list: one writer, lock-free readers (db/skiplist.h).

/** Memory as single stores leave it, and searches through it. */
module SkipMemory {
  import opened DbFormat

  const MAX_HEIGHT := 12

  /** Nodes live in an arena and are never freed; node 0 is the head. No link leads to the head, so
      the link 0 stands for NULL. */
  datatype Node = Node(entry: Entry, next: seq<nat>)

  type Nodes = seq<Node>

  predicate Precedes(nodes: Nodes, x: nat, y: nat)
    requires x < |nodes| && y < |nodes|
  {
    x == 0 || Before(nodes[x].entry.key, nodes[y].entry.key)
  }

  predicate PrecedesKey(nodes: Nodes, x: nat, target: InternalKey)
    requires x < |nodes|
  {
    x == 0 || Before(nodes[x].entry.key, target)
  }

  /** KeyIsAfterNode: NULL counts as infinite. */
  predicate KeyIsAfterNode(nodes: Nodes, target: InternalKey, n: nat)
    requires n < |nodes|
  {
    n != 0 && Before(nodes[n].entry.key, target)
  }

  ghost predicate Allocated(nodes: Nodes, level: nat, linked: set<nat>) {
    && nodes != [] && level < MAX_HEIGHT && |nodes[0].next| == MAX_HEIGHT
    && forall x :: x in linked ==> 0 < x < |nodes| && level < |nodes[x].next|
  }

  /** n comes right after x among the linked nodes. */
  ghost predicate IsSuccessor(nodes: Nodes, linked: set<nat>, x: nat, n: nat)
    requires x < |nodes| && forall y :: y in linked ==> y < |nodes|
  {
    if n == 0 then forall y :: y in linked ==> !Precedes(nodes, x, y)
    else n in linked && Precedes(nodes, x, n) && forall y :: y in linked && Precedes(nodes, x, y) ==>
      !Precedes(nodes, y, n)
  }

  /** The links of this level lead from the head through the linked nodes in key order. */
  ghost predicate LevelGood(nodes: Nodes, level: nat, linked: set<nat>) {
    && Allocated(nodes, level, linked)
    && forall x :: x == 0 || x in linked ==> IsSuccessor(nodes, linked, x, nodes[x].next[level])
  }

  ghost predicate DistinctKeys(nodes: Nodes, linked: set<nat>)
    requires forall x :: x in linked ==> x < |nodes|
  {
    forall x, y :: x in linked && y in linked && x != y ==> nodes[x].entry.key != nodes[y].entry.key
  }

  /** Every level is a sorted list, and a sub-list of the level below. */
  ghost predicate Good(nodes: Nodes, maxHeight: nat, linked: seq<set<nat>>) {
    && |linked| == MAX_HEIGHT && 1 <= maxHeight <= MAX_HEIGHT
    && (forall l :: 0 <= l < MAX_HEIGHT ==> LevelGood(nodes, l, linked[l]))
    && (forall l :: 0 < l < MAX_HEIGHT ==> linked[l] <= linked[l - 1])
    && (forall l :: maxHeight <= l < MAX_HEIGHT ==> linked[l] == {})
    && DistinctKeys(nodes, linked[0])
  }

  /** p is the last linked node before the target, or the head. */
  ghost predicate IsPrev(nodes: Nodes, level: nat, linked: set<nat>, target: InternalKey, p: nat)
    requires Allocated(nodes, level, linked)
  {
    && (p == 0 || p in linked) && PrecedesKey(nodes, p, target)
    && forall y :: y in linked && Precedes(nodes, p, y) ==> !Before(nodes[y].entry.key, target)
  }

  /** n is the first linked node at or after the target, or NULL. */
  ghost predicate IsFirstFrom(nodes: Nodes, linked: set<nat>, target: InternalKey, n: nat)
    requires forall y :: y in linked ==> y < |nodes|
  {
    && (n == 0 || (n in linked && !Before(nodes[n].entry.key, target)))
    && forall y :: y in linked && !Before(nodes[y].entry.key, target) ==>
      n != 0 && (y == n || Before(nodes[n].entry.key, nodes[y].entry.key))
  }

  /** A search at this level may be here: at the head, or at a linked node before the target. */
  ghost predicate OnTheWay(nodes: Nodes, level: nat, linked: set<nat>, target: InternalKey, x: nat)
    requires Allocated(nodes, level, linked)
  {
    (x == 0 || x in linked) && PrecedesKey(nodes, x, target)
  }

  /** Before is a strict total order. */
  lemma BeforeOrders(a: InternalKey, b: InternalKey, c: InternalKey)
    ensures !(Before(a, b) && Before(b, a)) && !Before(a, a)
    ensures Before(a, b) && Before(b, c) ==> Before(a, c)
    ensures a == b || Before(a, b) || Before(b, a)
  {
  }

  /** Where the search stops at a level is the last node before the target. */
  lemma StopIsPrev(nodes: Nodes, level: nat, linked: set<nat>, target: InternalKey, x: nat)
    requires LevelGood(nodes, level, linked) && OnTheWay(nodes, level, linked, target, x)
    requires !KeyIsAfterNode(nodes, target, nodes[x].next[level])
    ensures IsPrev(nodes, level, linked, target, x)
  {
    var n := nodes[x].next[level];
    forall y | y in linked && Precedes(nodes, x, y) ensures !Before(nodes[y].entry.key, target) {
      if Before(nodes[y].entry.key, target) {
        assert n != 0 && !Precedes(nodes, y, n);
        BeforeOrders(nodes[n].entry.key, nodes[y].entry.key, target);
      }
    }
  }

  /** At the bottom level what comes next is the search's answer. */
  lemma StopIsAnswer(nodes: Nodes, linked: set<nat>, target: InternalKey, x: nat)
    requires LevelGood(nodes, 0, linked) && OnTheWay(nodes, 0, linked, target, x) && DistinctKeys(nodes, linked)
    requires !KeyIsAfterNode(nodes, target, nodes[x].next[0])
    ensures IsFirstFrom(nodes, linked, target, nodes[x].next[0])
  {
    var n := nodes[x].next[0];
    forall y | y in linked && !Before(nodes[y].entry.key, target)
      ensures n != 0 && (y == n || Before(nodes[n].entry.key, nodes[y].entry.key))
    {
      if x != 0 {
        BeforeOrders(nodes[x].entry.key, nodes[y].entry.key, target);
        BeforeOrders(nodes[x].entry.key, target, nodes[y].entry.key);
      }
      assert Precedes(nodes, x, y);
      BeforeOrders(nodes[n].entry.key, nodes[y].entry.key, target);
    }
  }

  /** One store to one link. */
  function SetNext(nodes: Nodes, x: nat, level: nat, n: nat): (r: Nodes)
    requires x < |nodes| && level < |nodes[x].next|
    ensures |r| == |nodes| && forall y :: 0 <= y < |nodes| ==>
      r[y].entry == nodes[y].entry && |r[y].next| == |nodes[y].next|
    ensures forall y, l :: 0 <= y < |nodes| && 0 <= l < |nodes[y].next| ==>
              r[y].next[l] == if y == x && l == level then n else nodes[y].next[l]
  {
    nodes[x := nodes[x].(next := nodes[x].next[level := n])]
  }

  /** Levels depend on nothing but the entries and the links of their own nodes. */
  lemma LevelFrame(nodes: Nodes, after: Nodes, level: nat, linked: set<nat>)
    requires LevelGood(nodes, level, linked) && |nodes| <= |after|
    requires forall x :: 0 <= x < |nodes| ==> after[x].entry == nodes[x].entry && |after[x].next| == |nodes[x].next|
    requires forall x :: x == 0 || x in linked ==> after[x].next[level] == nodes[x].next[level]
    ensures LevelGood(after, level, linked)
  {
  }

  /** The new node x is ready for this level: its own link leads past prev. */
  ghost predicate ReadyToLink(nodes: Nodes, level: nat, linked: set<nat>, x: nat, prev: nat) {
    && LevelGood(nodes, level, linked) && 0 < x < |nodes| && level < |nodes[x].next| && x !in linked
      && DistinctKeys(nodes, linked)
    && IsPrev(nodes, level, linked, nodes[x].entry.key, prev)
    && (forall y :: y in linked ==> nodes[y].entry.key != nodes[x].entry.key)
    && nodes[x].next[level] == nodes[prev].next[level]
  }

  /** The release store in prev makes x a node of this level. */
  lemma LinkKeepsLevel(nodes: Nodes, level: nat, linked: set<nat>, x: nat, prev: nat)
    requires ReadyToLink(nodes, level, linked, x, prev)
    ensures prev < |nodes| && level < |nodes[prev].next|
      && LevelGood(SetNext(nodes, prev, level, x), level, linked + {x})
  {
    var after := SetNext(nodes, prev, level, x);
    forall y | y == 0 || y in linked + {x} ensures IsSuccessor(after, linked + {x}, y, after[y].next[level]) {
      if y == x {
        NewNodeLinks(nodes, level, linked, x, prev);
      } else if y == prev {
        PrevLinks(nodes, level, linked, x, prev);
      } else {
        OthersLink(nodes, level, linked, x, prev, y);
      }
      SuccessorFrame(nodes, after, linked + {x}, y, after[y].next[level]);
    }
  }

  lemma SuccessorFrame(nodes: Nodes, after: Nodes, linked: set<nat>, x: nat, n: nat)
    requires x < |nodes| && (forall y :: y in linked ==> y < |nodes|) && |nodes| <= |after|
    requires forall y :: 0 <= y < |nodes| ==> after[y].entry == nodes[y].entry
    requires IsSuccessor(nodes, linked, x, n)
    ensures IsSuccessor(after, linked, x, n)
  {
  }

  lemma NewNodeLinks(nodes: Nodes, level: nat, linked: set<nat>, x: nat, prev: nat)
    requires ReadyToLink(nodes, level, linked, x, prev)
    ensures IsSuccessor(nodes, linked + {x}, x, nodes[x].next[level])
  {
    var n, k := nodes[x].next[level], nodes[x].entry.key;
    assert IsSuccessor(nodes, linked, prev, n);
    BeforeOrders(k, k, k);
    forall y | y in linked && Before(k, nodes[y].entry.key) ensures Precedes(nodes, prev, y) {
      if prev != 0 {
        BeforeOrders(nodes[prev].entry.key, k, nodes[y].entry.key);
      }
    }
    if n != 0 {
      BeforeOrders(k, nodes[n].entry.key, k);
    }
  }

  lemma PrevLinks(nodes: Nodes, level: nat, linked: set<nat>, x: nat, prev: nat)
    requires ReadyToLink(nodes, level, linked, x, prev)
    ensures IsSuccessor(nodes, linked + {x}, prev, x)
  {
    var k := nodes[x].entry.key;
    BeforeOrders(k, k, k);
  }

  lemma OthersLink(nodes: Nodes, level: nat, linked: set<nat>, x: nat, prev: nat, y: nat)
    requires ReadyToLink(nodes, level, linked, x, prev) && (y == 0 || y in linked) && y != prev
    ensures IsSuccessor(nodes, linked + {x}, y, nodes[y].next[level])
  {
    var m, k := nodes[y].next[level], nodes[x].entry.key;
    assert IsSuccessor(nodes, linked, y, m);
    if Precedes(nodes, y, x) {
      assert Precedes(nodes, y, prev) && prev != 0 by {
        if y != 0 {
          assert !Precedes(nodes, prev, y);
          BeforeOrders(nodes[prev].entry.key, nodes[y].entry.key, k);
        }
      }
      assert m != 0 && !Precedes(nodes, prev, m);
      BeforeOrders(nodes[m].entry.key, nodes[prev].entry.key, k);
      BeforeOrders(nodes[m].entry.key, k, k);
    }
  }

  function EntriesOf(nodes: Nodes, linked: set<nat>): set<Entry>
    requires forall x :: x in linked ==> x < |nodes|
  {
    set x | x in linked :: nodes[x].entry
  }

  lemma EntriesFrame(nodes: Nodes, after: Nodes, linked: set<nat>)
    requires (forall x :: x in linked ==> x < |nodes|) && |nodes| <= |after|
    requires forall x :: 0 <= x < |nodes| ==> after[x].entry == nodes[x].entry
    ensures EntriesOf(after, linked) == EntriesOf(nodes, linked)
  {
    forall x | x in linked ensures nodes[x].entry in EntriesOf(after, linked)
      && after[x].entry in EntriesOf(nodes, linked) {
      assert after[x].entry == nodes[x].entry;
    }
  }

  lemma OneMoreEntry(nodes: Nodes, linked: set<nat>, x: nat)
    requires (forall y :: y in linked ==> y < |nodes|) && x < |nodes|
    ensures EntriesOf(nodes, linked + {x}) == EntriesOf(nodes, linked) + {nodes[x].entry}
  {
    forall e | e in EntriesOf(nodes, linked) + {nodes[x].entry} ensures e in EntriesOf(nodes, linked + {x}) {
      if e == nodes[x].entry {
        assert x in linked + {x};
      } else {
        var y :| y in linked && nodes[y].entry == e;
        assert y in linked + {x};
      }
    }
  }

  /** What is still ahead of a search. */
  ghost function Ahead(nodes: Nodes, linked: set<nat>, x: nat): set<nat>
    requires x < |nodes| && forall y :: y in linked ==> y < |nodes|
  {
    set y | y in linked && Precedes(nodes, x, y)
  }

  lemma AheadShrinks(nodes: Nodes, linked: set<nat>, x: nat, n: nat)
    requires x < |nodes| && (forall y :: y in linked ==> y < |nodes|) && n in linked && n != 0 && Precedes(nodes, x, n)
    ensures Ahead(nodes, linked, n) < Ahead(nodes, linked, x)
  {
    forall y | y in Ahead(nodes, linked, n) ensures y in Ahead(nodes, linked, x) {
      if x != 0 {
        BeforeOrders(nodes[x].entry.key, nodes[n].entry.key, nodes[y].entry.key);
      }
    }
    BeforeOrders(nodes[n].entry.key, nodes[n].entry.key, nodes[n].entry.key);
    assert n in Ahead(nodes, linked, x) && n !in Ahead(nodes, linked, n);
  }

  /** A link followed at one level leads to a node of the bottom level that is further on. */
  lemma MoveRight(nodes: Nodes, maxHeight: nat, linked: seq<set<nat>>, level: nat, x: nat)
    requires Good(nodes, maxHeight, linked) && level < MAX_HEIGHT && (x == 0 || x in linked[level])
      && nodes[x].next[level] != 0
    ensures var n := nodes[x].next[level]; n in linked[level] && n in linked[0]
                                           && Ahead(nodes, linked[0], n) < Ahead(nodes, linked[0], x)
  {
    var n := nodes[x].next[level];
    assert LevelGood(nodes, level, linked[level]) && LevelGood(nodes, 0, linked[0]);
    assert IsSuccessor(nodes, linked[level], x, n);
    LevelsNest(linked, level);
    AheadShrinks(nodes, linked[0], x, n);
  }

  lemma {:induction false} LevelsNest(linked: seq<set<nat>>, level: nat)
    requires level < |linked| && forall l :: 0 < l < |linked| ==> linked[l] <= linked[l - 1]
    ensures linked[level] <= linked[0]
    decreases level
  {
    if level > 0 {
      LevelsNest(linked, level - 1);
    }
  }
}
