/** The stores of one insertion. */
module SkipInsertion {
  import opened DbFormat
  import opened SkipMemory

  /** prev is where x belongs at the levels from low on, below its height. */
  ghost predicate PrevsFrom(nodes: Nodes, linked: seq<set<nat>>, target: InternalKey, prev: seq<nat>, low: nat,
                            height: nat)
    requires |linked| == MAX_HEIGHT && forall l :: 0 <= l < MAX_HEIGHT ==> Allocated(nodes, l, linked[l])
  {
    && |prev| == MAX_HEIGHT && height <= MAX_HEIGHT
    && forall l :: low <= l < height ==> IsPrev(nodes, l, linked[l], target, prev[l])
  }

  /** The node x is linked at the levels below i and at no other. */
  ghost predicate Linking(nodes: Nodes, maxHeight: nat, linked: seq<set<nat>>, x: nat, prev: seq<nat>, i: nat) {
    && Good(nodes, maxHeight, linked) && 0 < x < |nodes| && i <= |nodes[x].next| <= maxHeight
    && (forall l :: 0 <= l < MAX_HEIGHT ==> (x in linked[l] <==> l < i))
    && PrevsFrom(nodes, linked, nodes[x].entry.key, prev, i, |nodes[x].next|)
    && forall y :: y in linked[0] && y != x ==> nodes[y].entry.key != nodes[x].entry.key
  }

  lemma RaiseHeight(nodes: Nodes, maxHeight: nat, linked: seq<set<nat>>, height: nat)
    requires Good(nodes, maxHeight, linked) && maxHeight <= height <= MAX_HEIGHT
    ensures Good(nodes, height, linked)
    ensures forall l, target :: maxHeight <= l < MAX_HEIGHT ==> IsPrev(nodes, l, linked[l], target, 0)
  {
    assert forall l :: maxHeight <= l < MAX_HEIGHT ==> LevelGood(nodes, l, linked[l]);
  }

  /** NewNode: nothing leads to the new node yet, whatever its links hold. */
  lemma AllocateNode(nodes: Nodes, maxHeight: nat, linked: seq<set<nat>>, node: Node, prev: seq<nat>)
    requires Good(nodes, maxHeight, linked) && |node.next| <= maxHeight
    requires PrevsFrom(nodes, linked, node.entry.key, prev, 0, |node.next|)
    requires forall y :: y in linked[0] ==> nodes[y].entry.key != node.entry.key
    ensures Linking(nodes + [node], maxHeight, linked, |nodes|, prev, 0)
  {
    var after := nodes + [node];
    forall l | 0 <= l < MAX_HEIGHT ensures LevelGood(after, l, linked[l]) && |nodes| !in linked[l] {
      assert LevelGood(nodes, l, linked[l]);
      LevelFrame(nodes, after, l, linked[l]);
    }
    forall l | 0 <= l < |node.next| ensures IsPrev(after, l, linked[l], node.entry.key, prev[l]) {
      assert IsPrev(nodes, l, linked[l], node.entry.key, prev[l]);
    }
  }

  /** A store into a link that no level follows leaves all levels good. */
  lemma StoreOwnLink(nodes: Nodes, maxHeight: nat, linked: seq<set<nat>>, x: nat, prev: seq<nat>, i: nat)
    requires Linking(nodes, maxHeight, linked, x, prev, i) && i < |nodes[x].next|
    ensures i < |nodes[prev[i]].next|
    ensures var after := SetNext(nodes, x, i, nodes[prev[i]].next[i]);
            Linking(after, maxHeight, linked, x, prev, i) && ReadyToLink(after, i, linked[i], x, prev[i])
  {
    assert LevelGood(nodes, i, linked[i]);
    assert IsPrev(nodes, i, linked[i], nodes[x].entry.key, prev[i]);
    var after := SetNext(nodes, x, i, nodes[prev[i]].next[i]);
    StoreKeepsLevels(nodes, maxHeight, linked, x, i, nodes[prev[i]].next[i]);
    PrevsFrame(nodes, after, linked, nodes[x].entry.key, prev, i, |nodes[x].next|);
    LevelsNest(linked, i);
  }

  lemma StoreKeepsLevels(nodes: Nodes, maxHeight: nat, linked: seq<set<nat>>, x: nat, i: nat, n: nat)
    requires Good(nodes, maxHeight, linked) && 0 < x < |nodes| && i < |nodes[x].next| <= MAX_HEIGHT && x !in linked[i]
    ensures Good(SetNext(nodes, x, i, n), maxHeight, linked)
  {
    var after := SetNext(nodes, x, i, n);
    forall l | 0 <= l < MAX_HEIGHT ensures LevelGood(after, l, linked[l]) {
      assert LevelGood(nodes, l, linked[l]);
      LevelFrame(nodes, after, l, linked[l]);
    }
  }

  lemma PrevsFrame(nodes: Nodes, after: Nodes, linked: seq<set<nat>>, target: InternalKey, prev: seq<nat>, low: nat,
                   height: nat)
    requires |linked| == MAX_HEIGHT
    requires forall l :: 0 <= l < MAX_HEIGHT ==> Allocated(nodes, l, linked[l]) && Allocated(after, l, linked[l])
    requires PrevsFrom(nodes, linked, target, prev, low, height)
    requires |nodes| == |after| && forall y :: 0 <= y < |nodes| ==> after[y].entry == nodes[y].entry
    ensures PrevsFrom(after, linked, target, prev, low, height)
  {
    forall l | low <= l < height ensures IsPrev(after, l, linked[l], target, prev[l]) {
      assert IsPrev(nodes, l, linked[l], target, prev[l]);
    }
  }

  /** The store that publishes x at level i. */
  lemma Publish(nodes: Nodes, maxHeight: nat, linked: seq<set<nat>>, x: nat, prev: seq<nat>, i: nat)
    requires Linking(nodes, maxHeight, linked, x, prev, i) && i < |nodes[x].next|
      && ReadyToLink(nodes, i, linked[i], x, prev[i])
    ensures prev[i] < |nodes| && i < |nodes[prev[i]].next|
    ensures Linking(SetNext(nodes, prev[i], i, x), maxHeight, linked[i := linked[i] + {x}], x, prev, i + 1)
  {
    LinkKeepsLevel(nodes, i, linked[i], x, prev[i]);
    var after, linked' := SetNext(nodes, prev[i], i, x), linked[i := linked[i] + {x}];
    forall l | 0 <= l < MAX_HEIGHT ensures LevelGood(after, l, linked'[l]) {
      assert LevelGood(nodes, l, linked[l]);
      if l != i {
        LevelFrame(nodes, after, l, linked[l]);
      }
    }
    PublishedPrevs(nodes, after, linked, linked', nodes[x].entry.key, prev, i, |nodes[x].next|);
    PublishedIsGood(nodes, maxHeight, linked, x, prev, i, after);
  }

  /** Both stores of a level. */
  lemma LinkOnce(nodes: Nodes, maxHeight: nat, linked: seq<set<nat>>, x: nat, prev: seq<nat>, i: nat)
    requires Linking(nodes, maxHeight, linked, x, prev, i) && i < |nodes[x].next|
    ensures i < |nodes[prev[i]].next|
    ensures var after := SetNext(SetNext(nodes, x, i, nodes[prev[i]].next[i]), prev[i], i, x);
            var linked' := linked[i := linked[i] + {x}];
            && Linking(after, maxHeight, linked', x, prev, i + 1)
            && EntriesOf(after, linked'[0]) == EntriesOf(nodes, linked[0]) + if i == 0 then {nodes[x].entry} else {}
  {
    StoreOwnLink(nodes, maxHeight, linked, x, prev, i);
    var mid := SetNext(nodes, x, i, nodes[prev[i]].next[i]);
    Publish(mid, maxHeight, linked, x, prev, i);
    var after := SetNext(mid, prev[i], i, x);
    EntriesFrame(nodes, after, linked[0]);
    OneMoreEntry(after, linked[0], x);
  }

  lemma PublishedPrevs(nodes: Nodes, after: Nodes, linked: seq<set<nat>>, linked': seq<set<nat>>, target: InternalKey,
                       prev: seq<nat>, i: nat, height: nat)
    requires |linked| == |linked'| == MAX_HEIGHT && forall l :: i < l < MAX_HEIGHT ==> linked'[l] == linked[l]
    requires forall l :: 0 <= l < MAX_HEIGHT ==> Allocated(nodes, l, linked[l]) && Allocated(after, l, linked'[l])
    requires PrevsFrom(nodes, linked, target, prev, i, height)
    requires |nodes| == |after| && forall y :: 0 <= y < |nodes| ==> after[y].entry == nodes[y].entry
    ensures PrevsFrom(after, linked', target, prev, i + 1, height)
  {
    forall l | i + 1 <= l < height ensures IsPrev(after, l, linked'[l], target, prev[l]) {
      assert IsPrev(nodes, l, linked[l], target, prev[l]);
    }
  }

  lemma PublishedIsGood(nodes: Nodes, maxHeight: nat, linked: seq<set<nat>>, x: nat, prev: seq<nat>, i: nat,
                        after: Nodes)
    requires Linking(nodes, maxHeight, linked, x, prev, i) && i < |nodes[x].next|
    requires |after| == |nodes| && forall y :: 0 <= y < |nodes| ==> after[y].entry == nodes[y].entry
    requires var linked' := linked[i := linked[i] + {x}]; forall l :: 0 <= l < MAX_HEIGHT ==>
      LevelGood(after, l, linked'[l])
    ensures Good(after, maxHeight, linked[i := linked[i] + {x}])
  {
    var linked' := linked[i := linked[i] + {x}];
    forall l | 0 < l < MAX_HEIGHT ensures linked'[l] <= linked'[l - 1] {
      assert linked[l] <= linked[l - 1];
      assert l == i ==> x in linked[l - 1];
    }
    LevelsNest(linked, i);
    assert linked'[0] <= linked[0] + {x};
  }
}
