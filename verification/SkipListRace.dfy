// Readers of the skip list while an insertion is under way, one store or load at a time (db/skiplist.h).

module SkipListRace {
  import opened DbFormat
  import opened SkipMemory
  import opened SkipInsertion
  import opened Runs

  /** The one writer: between insertions, knowing where to insert, or linking its node x. */
  datatype Writer =
    | Idle
    | Searched(e: Entry, height: nat, prev: seq<nat>)
    | Linking(x: nat, prev: seq<nat>, i: nat, stored: bool)

  /** A search at node x, or one that ended with the node n after its last node. before: the nodes
      in the list when it began. */
  datatype Reader =
    | Searching(target: InternalKey, x: nat, level: nat, before: set<nat>)
    | Found(target: InternalKey, last: nat, n: nat, before: set<nat>)

  /** linked is ghost knowledge: the nodes of each level. */
  datatype State = State(nodes: Nodes, maxHeight: nat, linked: seq<set<nat>>, writer: Writer, readers: map<nat, Reader>)

  ghost predicate Init(s: State) {
    && |s.nodes| == 1 && s.nodes[0].next == seq(MAX_HEIGHT, _ => 0) && s.maxHeight == 1
    && s.linked == seq(MAX_HEIGHT, _ => {}) && s.writer == Idle && s.readers == map[]
  }

  ghost predicate LevelsAllocated(s: State) {
    |s.linked| == MAX_HEIGHT && forall l :: 0 <= l < MAX_HEIGHT ==> Allocated(s.nodes, l, s.linked[l])
  }

  /** The writer knows the node before the new key at every level; nobody else stores, so its own
      search is one step. */
  ghost predicate StartInsert(s: State, t: State, e: Entry, height: nat, prev: seq<nat>) {
    && s.writer == Idle && 1 <= height <= MAX_HEIGHT && LevelsAllocated(s)
    && (forall y :: y in s.linked[0] ==> s.nodes[y].entry.key != e.key)
    && PrevsFrom(s.nodes, s.linked, e.key, prev, 0, height)
    && t == s.(writer := Searched(e, height, prev))
  }

  ghost predicate StoreMaxHeight(s: State, t: State) {
    s.writer.Searched? && s.writer.height > s.maxHeight && t == s.(maxHeight := s.writer.height)
  }

  /** The links of a new node hold anything at first. */
  ghost predicate NewNode(s: State, t: State, links: seq<nat>) {
    && s.writer.Searched? && s.writer.height <= s.maxHeight && |links| == s.writer.height
    && t == s.(nodes := s.nodes + [Node(s.writer.e, links)], writer := Linking(|s.nodes|, s.writer.prev, 0, false))
  }

  ghost predicate Linkable(s: State) {
    && s.writer.Linking? && s.writer.x < |s.nodes| && s.writer.i < |s.nodes[s.writer.x].next|
      && s.writer.i < |s.writer.prev|
    && s.writer.i < |s.linked|
    && s.writer.prev[s.writer.i] < |s.nodes| && s.writer.i < |s.nodes[s.writer.prev[s.writer.i]].next|
  }

  ghost predicate StoreOwn(s: State, t: State) {
    && Linkable(s) && !s.writer.stored
    && var x, i := s.writer.x, s.writer.i;
       t == s.(nodes := SetNext(s.nodes, x, i, s.nodes[s.writer.prev[i]].next[i]), writer := s.writer.(stored := true))
  }

  ghost predicate StorePrev(s: State, t: State) {
    && Linkable(s) && s.writer.stored
    && var x, i := s.writer.x, s.writer.i;
       t == s.(nodes := SetNext(s.nodes, s.writer.prev[i], i, x), linked := s.linked[i := s.linked[i] + {x}],
               writer := s.writer.(i := i + 1, stored := false))
  }

  ghost predicate EndInsert(s: State, t: State) {
    s.writer.Linking? && s.writer.x < |s.nodes| && s.writer.i == |s.nodes[s.writer.x].next| && t == s.(writer := Idle)
  }

  /** A search begins at the head, at a height that may be stale. */
  ghost predicate StartSearch(s: State, t: State, id: nat, target: InternalKey, height: nat) {
    && 1 <= height <= MAX_HEIGHT && |s.linked| == MAX_HEIGHT
    && t == s.(readers := s.readers[id := Searching(target, 0, height - 1, s.linked[0])])
  }

  /** One load: go right, go down, or stop. */
  ghost predicate Load(s: State, t: State, id: nat) {
    && id in s.readers && s.readers[id].Searching?
    && var r := s.readers[id];
       && r.x < |s.nodes| && r.level < |s.nodes[r.x].next| && s.nodes[r.x].next[r.level] < |s.nodes|
       && var n := s.nodes[r.x].next[r.level];
          t == s.(readers := s.readers[id :=
            if KeyIsAfterNode(s.nodes, r.target, n) then r.(x := n)
            else if r.level == 0 then Found(r.target, r.x, n, r.before)
            else r.(level := r.level - 1)])
  }

  ghost predicate WriterStep(s: State, t: State) {
    || (exists e, height, prev :: StartInsert(s, t, e, height, prev)) || StoreMaxHeight(s, t)
    || (exists links :: NewNode(s, t, links)) || StoreOwn(s, t) || StorePrev(s, t) || EndInsert(s, t)
  }

  ghost predicate ReaderStep(s: State, t: State) {
    (exists id, target, height :: StartSearch(s, t, id, target, height)) || (exists id :: Load(s, t, id))
  }

  ghost predicate Step(s: State, t: State) {
    WriterStep(s, t) || ReaderStep(s, t)
  }

  ghost predicate WriterGood(s: State) {
    && Good(s.nodes, s.maxHeight, s.linked)
    && match s.writer
       case Idle => true
       case Searched(e, height, prev) =>
         && 1 <= height <= MAX_HEIGHT && PrevsFrom(s.nodes, s.linked, e.key, prev, 0, height)
         && forall y :: y in s.linked[0] ==> s.nodes[y].entry.key != e.key
       case Linking(x, prev, i, stored) =>
         && SkipInsertion.Linking(s.nodes, s.maxHeight, s.linked, x, prev, i)
         && (stored ==> i < |s.nodes[x].next| && ReadyToLink(s.nodes, i, s.linked[i], x, prev[i]))
  }

  /** No node of before has a key from the target on and before n's. */
  ghost predicate NothingSkipped(nodes: Nodes, target: InternalKey, n: nat, before: set<nat>)
    requires n < |nodes| && forall y :: y in before ==> y < |nodes|
  {
    forall y :: y in before && !Before(nodes[y].entry.key, target) ==>
      n != 0 && !Before(nodes[y].entry.key, nodes[n].entry.key)
  }

  /** Nor one after the last node and before the target. */
  ghost predicate NothingCloser(nodes: Nodes, target: InternalKey, last: nat, before: set<nat>)
    requires last < |nodes| && forall y :: y in before ==> y < |nodes|
  {
    forall y :: y in before && Precedes(nodes, last, y) ==> !Before(nodes[y].entry.key, target)
  }

  ghost predicate ReaderGood(nodes: Nodes, linked: seq<set<nat>>, r: Reader)
    requires |linked| == MAX_HEIGHT && Allocated(nodes, 0, linked[0])
      && forall l :: 0 <= l < MAX_HEIGHT ==> Allocated(nodes, l, linked[l])
  {
    && r.before <= linked[0]
    && match r
       case Searching(target, x, level, _) => level < MAX_HEIGHT && OnTheWay(nodes, level, linked[level], target, x)
       case Found(target, last, n, before) =>
         && (n == 0 || (n in linked[0] && !Before(nodes[n].entry.key, target)))
           && NothingSkipped(nodes, target, n, before)
         && OnTheWay(nodes, 0, linked[0], target, last) && NothingCloser(nodes, target, last, before)
  }

  ghost predicate Inv(s: State) {
    WriterGood(s) && forall id :: id in s.readers ==> ReaderGood(s.nodes, s.linked, s.readers[id])
  }

  /** What a reader relies on: nodes stay as they are and stay linked. */
  ghost predicate OnlyGrows(s: State, t: State) {
    && LevelsAllocated(s) && LevelsAllocated(t) && |s.nodes| <= |t.nodes| && t.readers == s.readers
    && (forall x :: 0 <= x < |s.nodes| ==> t.nodes[x].entry == s.nodes[x].entry)
    && forall l :: 0 <= l < MAX_HEIGHT ==> s.linked[l] <= t.linked[l]
  }

  lemma ReadersUnaffected(s: State, t: State)
    requires OnlyGrows(s, t)
    requires forall id :: id in s.readers ==> ReaderGood(s.nodes, s.linked, s.readers[id])
    ensures forall id :: id in t.readers ==> ReaderGood(t.nodes, t.linked, t.readers[id])
  {
    forall id | id in s.readers ensures ReaderGood(t.nodes, t.linked, s.readers[id]) {
      assert ReaderGood(s.nodes, s.linked, s.readers[id]);
    }
  }

  lemma WriterStepGrows(s: State, t: State)
    requires WriterGood(s) && WriterStep(s, t)
    ensures WriterGood(t) && OnlyGrows(s, t)
  {
    if e, height, prev :| StartInsert(s, t, e, height, prev) {
    } else if StoreMaxHeight(s, t) {
      RaiseHeight(s.nodes, s.maxHeight, s.linked, s.writer.height);
    } else if links :| NewNode(s, t, links) {
      AllocateNode(s.nodes, s.maxHeight, s.linked, Node(s.writer.e, links), s.writer.prev);
    } else if StoreOwn(s, t) {
      StoreOwnLink(s.nodes, s.maxHeight, s.linked, s.writer.x, s.writer.prev, s.writer.i);
    } else if StorePrev(s, t) {
      Publish(s.nodes, s.maxHeight, s.linked, s.writer.x, s.writer.prev, s.writer.i);
    }
  }

  lemma LoadIsSafe(s: State, t: State, id: nat)
    requires Inv(s) && Load(s, t, id)
    ensures ReaderGood(s.nodes, s.linked, t.readers[id])
    ensures t.readers[id].Found? ==> IsFirstFrom(s.nodes, s.linked[0], t.readers[id].target, t.readers[id].n)
    ensures t.readers[id].Found? ==> IsPrev(s.nodes, 0, s.linked[0], t.readers[id].target, t.readers[id].last)
  {
    var r := s.readers[id];
    var n := s.nodes[r.x].next[r.level];
    assert LevelGood(s.nodes, r.level, s.linked[r.level]);
    assert IsSuccessor(s.nodes, s.linked[r.level], r.x, n);
    if !KeyIsAfterNode(s.nodes, r.target, n) {
      if r.level == 0 {
        StopIsPrev(s.nodes, 0, s.linked[0], r.target, r.x);
        StopIsAnswer(s.nodes, s.linked[0], r.target, r.x);
        AnswerSkipsNothing(s.nodes, s.linked[0], r.target, n);
      } else {
        assert s.linked[r.level] <= s.linked[r.level - 1];
      }
    }
  }

  lemma AnswerSkipsNothing(nodes: Nodes, linked: set<nat>, target: InternalKey, n: nat)
    requires (forall y :: y in linked ==> y < |nodes|) && n < |nodes| && IsFirstFrom(nodes, linked, target, n)
    ensures NothingSkipped(nodes, target, n, linked)
  {
    forall y | y in linked && !Before(nodes[y].entry.key, target)
      ensures n != 0 && !Before(nodes[y].entry.key, nodes[n].entry.key) {
      BeforeOrders(nodes[n].entry.key, nodes[y].entry.key, target);
    }
  }

  lemma StepKeepsInv(s: State, t: State)
    requires Inv(s) && Step(s, t)
    ensures Inv(t)
  {
    if WriterStep(s, t) {
      WriterStepGrows(s, t);
      ReadersUnaffected(s, t);
    } else if id: nat, target, height: nat :| StartSearch(s, t, id, target, height) {
      assert LevelGood(s.nodes, height - 1, s.linked[height - 1]);
    } else {
      var id: nat :| Load(s, t, id);
      LoadIsSafe(s, t, id);
    }
  }

  ghost predicate Run(states: seq<State>) {
    IsRun((s, t) => Step(s, t), states) && Init(states[0])
  }

  /** After every store each level is a sorted list and a sub-list of the one below; every search
      that has ended found a node at or after its target, and skipped no key that was there when it
      began; the last node before the target is as close as any that was there. */
  lemma SearchesAreSafe(states: seq<State>, i: nat)
    requires Run(states) && i < |states|
    ensures Inv(states[i])
  {
    InitIsGood(states[0]);
    forall s, t | Inv(s) && Step(s, t) ensures Inv(t) {
      StepKeepsInv(s, t);
    }
    KeptByRun((s, t) => Step(s, t), s => Inv(s), states, i);
  }

  lemma InitIsGood(s: State)
    requires Init(s)
    ensures Inv(s)
  {
    forall l | 0 <= l < MAX_HEIGHT ensures LevelGood(s.nodes, l, s.linked[l]) {
      assert s.nodes[0].next[l] == 0;
    }
  }

  /** At its last load a search has the exact answer for the list as it is at that moment. */
  lemma AnswerIsExactAtLastLoad(states: seq<State>, i: nat, id: nat)
    requires Run(states) && i < |states| - 1 && Load(states[i], states[i + 1], id) && states[i + 1].readers[id].Found?
    ensures var s, r := states[i], states[i + 1].readers[id];
            LevelsAllocated(s) && IsFirstFrom(s.nodes, s.linked[0], r.target, r.n)
              && IsPrev(s.nodes, 0, s.linked[0], r.target, r.last)
  {
    SearchesAreSafe(states, i);
    LoadIsSafe(states[i], states[i + 1], id);
  }
}
