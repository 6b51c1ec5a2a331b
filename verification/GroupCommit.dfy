/** The queue of writers as a state machine. Between any two steps of one thread the others may
    move: the leader holds the mutex for one step at a time, and not at all while it writes the
    log, syncs it and fills the memtable. */
module GroupCommit {
  import opened DbFormat
  import opened WriteBatches
  import opened BatchGroups
  import opened Runs

  datatype Outcome = Succeeded | Failed

  /** The queue's writers start to start + count - 1, whose operations get the numbers from first on. */
  datatype Group = Group(start: nat, count: nat, first: nat, ops: seq<Op>, sync: bool)

  /** Where a call of Write has got to. */
  datatype Pc =
    | Waiting
    | MakingRoom
    | Logging(g: Group)
    | Syncing(g: Group)
    | Inserting(g: Group, inserted: nat)
    | Ending(g: Group, outcome: Outcome, logged: bool, syncError: bool)
    | Returned(outcome: Outcome)

  datatype Finished = Finished(group: Group, outcome: Outcome, logged: bool)

  type Stored = set<(nat, Op)>

  /** Writers are numbered in the order they took the mutex to queue up. log holds the records of
      all log files, the current one from fileStart on; history is ghost. */
  datatype State = State(
    writers: seq<Writer>, pcs: seq<Pc>, queue: seq<nat>, done: map<nat, Outcome>,
    log: seq<Group>, fileStart: nat, durable: set<Group>, stored: Stored, lastSequence: nat, bgError: bool,
    history: seq<Finished>)

  function Head(s: State): int {
    |s.writers| - |s.queue|
  }

  /** The writers in the queue, from the front. */
  function Queued(s: State): seq<Writer> {
    if 0 <= Head(s) then s.writers[Head(s)..] else []
  }

  function SetPc(s: State, id: nat, pc: Pc): State
    requires id < |s.pcs|
  {
    s.(pcs := s.pcs[id := pc])
  }

  ghost predicate At(s: State, id: nat, pc: Pc) {
    id < |s.pcs| && s.pcs[id] == pc
  }

  ghost predicate Init(s: State) {
    s == State([], [], [], map[], [], 0, {}, {}, 0, false, [])
  }

  ghost predicate Enqueue(s: State, t: State, w: Writer) {
    t == s.(writers := s.writers + [w], pcs := s.pcs + [Waiting], queue := s.queue + [|s.writers|])
  }

  /** The wait loop ends for the writer at the front that nobody has served yet. */
  ghost predicate Lead(s: State, t: State, id: nat) {
    At(s, id, Waiting) && id !in s.done && s.queue != [] && s.queue[0] == id && t == SetPc(s, id, MakingRoom)
  }

  /** It also ends for a writer whose batch some leader took along. */
  ghost predicate Return(s: State, t: State, id: nat) {
    At(s, id, Waiting) && id in s.done && t == SetPc(s, id, Returned(s.done[id]))
  }

  /** MakeRoomForWrite starts a new log file. */
  ghost predicate SwitchLog(s: State, t: State, id: nat) {
    At(s, id, MakingRoom) && !s.bgError && t == s.(fileStart := |s.log|)
  }

  /** The leader leaves alone, without a group: MakeRoomForWrite failed, or it has no batch. */
  ghost predicate LeaveAlone(s: State, t: State, id: nat, outcome: Outcome) {
    && At(s, id, MakingRoom) && id < |s.writers| && s.queue != []
    && (outcome == Succeeded ==> !s.bgError && s.writers[id].batch == None)
    && t == SetPc(s, id, Returned(outcome)).(queue := s.queue[1..],
         history := s.history + [Finished(Group(id, 1, s.lastSequence + 1, [], false), outcome, false)])
  }

  ghost predicate BuildGroup(s: State, t: State, id: nat, last: nat) {
    && At(s, id, MakingRoom) && !s.bgError && IsGroup(Queued(s), last)
    && t == SetPc(s, id,
                  Logging(Group(id, last + 1, s.lastSequence + 1, BatchOps(Queued(s)[..last + 1]), Queued(s)[0].sync)))
  }

  ghost predicate AddRecord(s: State, t: State, id: nat, g: Group) {
    && At(s, id, Logging(g))
    && t == SetPc(s, id, if g.sync then Syncing(g) else Inserting(g, 0)).(log := s.log + [g])
  }

  ghost predicate AddRecordFails(s: State, t: State, id: nat, g: Group) {
    At(s, id, Logging(g)) && t == SetPc(s, id, Ending(g, Failed, false, false))
  }

  /** Everything in the current log file is on disk. */
  ghost predicate Sync(s: State, t: State, id: nat, g: Group) {
    && At(s, id, Syncing(g))
    && t == SetPc(s, id, Inserting(g, 0)).(durable := s.durable + set i | s.fileStart <= i < |s.log| :: s.log[i])
  }

  ghost predicate SyncFails(s: State, t: State, id: nat, g: Group) {
    At(s, id, Syncing(g)) && t == SetPc(s, id, Ending(g, Failed, true, true))
  }

  /** One operation reaches the memtable. */
  ghost predicate InsertOne(s: State, t: State, id: nat, g: Group, k: nat) {
    && At(s, id, Inserting(g, k)) && k < |g.ops|
    && t == SetPc(s, id, Inserting(g, k + 1)).(stored := s.stored + {(g.first + k, g.ops[k])})
  }

  ghost predicate InsertedAll(s: State, t: State, id: nat, g: Group) {
    At(s, id, Inserting(g, |g.ops|)) && t == SetPc(s, id, Ending(g, Succeeded, true, false))
  }

  /** The leader's followers, each to be told the group's outcome. */
  function Told(start: nat, count: nat, outcome: Outcome): (r: map<nat, Outcome>)
    ensures forall id :: id in r <==> start < id < start + count
    ensures forall id :: id in r ==> r[id] == outcome
  {
    if count <= 1 then map[] else Told(start, count - 1, outcome)[start + count - 1 := outcome]
  }

  lemma ToldOneMore(done: map<nat, Outcome>, start: nat, n: nat, outcome: Outcome)
    ensures done + Told(start, n + 1, outcome) ==
            if n == 0 then done + Told(start, n, outcome) else (done + Told(start, n, outcome))[start + n := outcome]
  {
  }

  /** The loop that pops the queue up to last_writer. */
  method PopGroup(queue: seq<nat>, done: map<nat, Outcome>, g: Group, outcome: Outcome)
    returns (rest: seq<nat>, done': map<nat, Outcome>)
    requires 0 < g.count <= |queue| && forall i :: 0 <= i < |queue| ==> queue[i] == g.start + i
    ensures rest == queue[g.count..] && done' == done + Told(g.start, g.count, outcome)
  {
    rest, done' := queue, done;
    var last := g.start + g.count - 1;
    ghost var n := 0;
    while true
      invariant 0 <= n < g.count && rest == queue[n..]
      invariant done' == done + Told(g.start, n, outcome)
      decreases g.count - n
    {
      var ready := rest[0];
      rest := rest[1..];
      n := n + 1;
      assert ready == g.start + n - 1;
      ToldOneMore(done, g.start, n - 1, outcome);
      if ready != g.start {
        done' := done'[ready := outcome];
      }
      if ready == last {
        break;
      }
    }
  }

  /** LastSequence moves past the group, failed or not, and the group leaves the queue. */
  ghost predicate Finish(s: State, t: State, id: nat, g: Group, outcome: Outcome, logged: bool, syncError: bool) {
    && At(s, id, Ending(g, outcome, logged, syncError)) && g.count <= |s.queue|
    && t == SetPc(s, id, Returned(outcome)).(
         lastSequence := s.lastSequence + |g.ops|, bgError := s.bgError || syncError,
         queue := s.queue[g.count..], done := s.done + Told(g.start, g.count, outcome),
         history := s.history + [Finished(g, outcome, logged)])
  }

  ghost predicate BackgroundFails(s: State, t: State) {
    t == s.(bgError := true)
  }

  ghost predicate WaitStep(s: State, t: State) {
    || (exists w :: Enqueue(s, t, w)) || BackgroundFails(s, t)
    || (exists id :: Lead(s, t, id) || Return(s, t, id) || SwitchLog(s, t, id))
  }

  ghost predicate LeaderStep(s: State, t: State) {
    || (exists id, last :: BuildGroup(s, t, id, last))
    || (exists id, g :: AddRecord(s, t, id, g) || AddRecordFails(s, t, id, g) || Sync(s, t, id, g)
                        || SyncFails(s, t, id, g)
                        || InsertedAll(s, t, id, g))
    || (exists id, g, k :: InsertOne(s, t, id, g, k))
  }

  ghost predicate LeaveStep(s: State, t: State) {
    || (exists id, outcome :: LeaveAlone(s, t, id, outcome))
    || (exists id, g, outcome, logged, syncError :: Finish(s, t, id, g, outcome, logged, syncError))
  }

  ghost predicate Step(s: State, t: State) {
    WaitStep(s, t) || LeaderStep(s, t) || LeaveStep(s, t)
  }

  function Members(g: Group, writers: seq<Writer>): seq<Writer>
    requires g.start + g.count <= |writers|
  {
    writers[g.start..g.start + g.count]
  }

  /** What is true of a finished group: a success holds all its members' operations and, if it wrote
      to the log, was synced when a member asked for it. */
  ghost predicate Sound(f: Finished, writers: seq<Writer>) {
    var g := f.group;
    && 0 < g.count && g.first > 0 && g.start + g.count <= |writers|
    && (g.ops == BatchOps(Members(g, writers)) || (g.ops == [] && g.count == 1 && !f.logged && f.outcome == Failed))
    && (f.logged ==> forall i :: g.start <= i < g.start + g.count && writers[i].sync ==> g.sync)
    && (f.outcome == Succeeded && !f.logged ==> g.count == 1 && writers[g.start].batch == None)
  }

  /** Groups follow one another, in writers and in sequence numbers, up to end and last. */
  ghost predicate Chain(history: seq<Finished>, writers: seq<Writer>, end: nat, last: nat) {
    if history == [] then end == 0 && last == 0
    else
      var f := history[|history| - 1];
      && Sound(f, writers) && f.group.start + f.group.count == end && f.group.first + |f.group.ops| == last + 1
      && Chain(history[..|history| - 1], writers, f.group.start, f.group.first - 1)
  }

  function Entries(g: Group, n: nat): Stored
    requires n <= |g.ops|
  {
    set i | 0 <= i < n :: (g.first + i, g.ops[i])
  }

  /** What the finished groups put into the memtable: all of a group that succeeded, none of another. */
  function StoredBy(history: seq<Finished>): Stored {
    if history == [] then {}
    else
      var f := history[|history| - 1];
      StoredBy(history[..|history| - 1]) + if f.outcome == Succeeded then Entries(f.group, |f.group.ops|) else {}
  }

  function LoggedBy(history: seq<Finished>): seq<Group> {
    if history == [] then []
    else
      var f := history[|history| - 1];
      LoggedBy(history[..|history| - 1]) + if f.logged then [f.group] else []
  }

  ghost predicate QueueGood(s: State) {
    && |s.pcs| == |s.writers| && 0 <= Head(s)
    && forall i :: 0 <= i < |s.queue| ==> s.queue[i] == Head(s) + i
  }

  /** The call at the front of the queue. */
  function FrontPc(s: State): Pc {
    if 0 <= Head(s) < |s.pcs| then s.pcs[Head(s)] else Waiting
  }

  /** Everyone behind the front waits, and everyone who has left the queue is told its outcome. */
  ghost predicate OthersGood(s: State)
    requires QueueGood(s)
  {
    && (forall id :: Head(s) < id < |s.pcs| ==> s.pcs[id] == Waiting)
    && (forall id :: id in s.done ==> id < Head(s))
    && !FrontPc(s).Returned?
    && forall id: nat :: id < Head(s) ==>
      || (s.pcs[id].Returned? && HasOutcome(s.history, id, s.pcs[id].outcome))
      || (s.pcs[id].Waiting? && id in s.done && HasOutcome(s.history, id, s.done[id]))
  }

  ghost predicate Covers(g: Group, id: nat) {
    g.start <= id < g.start + g.count
  }

  ghost predicate HasOutcome(history: seq<Finished>, id: nat, outcome: Outcome) {
    exists i :: 0 <= i < |history| && Covers(history[i].group, id) && history[i].outcome == outcome
  }

  ghost predicate GroupGood(s: State, g: Group)
    requires QueueGood(s)
  {
    && g.start == Head(s) && 0 < g.count <= |s.queue| && g.first == s.lastSequence + 1
    && g.ops == BatchOps(Members(g, s.writers))
    && forall i :: g.start <= i < g.start + g.count && s.writers[i].sync ==> g.sync
  }

  /** How far the leader's group is in the log and in the memtable. */
  ghost predicate FrontGood(s: State)
    requires QueueGood(s)
  {
    var done, logged := StoredBy(s.history), LoggedBy(s.history);
    match FrontPc(s)
    case Logging(g) => GroupGood(s, g) && s.stored == done && s.log == logged
    case Syncing(g) => GroupGood(s, g) && g.sync && s.stored == done && s.log == logged + [g] && s.fileStart < |s.log|
    case Inserting(g, k) =>
      GroupGood(s, g) && k <= |g.ops| && s.stored == done + Entries(g, k) && s.log == logged + [g]
        && (g.sync ==> g in s.durable)
    case Ending(g, outcome, wasLogged, _) =>
      && GroupGood(s, g) && s.stored == done + (if outcome == Succeeded then Entries(g, |g.ops|) else {})
      && s.log == logged + (if wasLogged then [g] else [])
      && (outcome == Succeeded ==> wasLogged && (g.sync ==> g in s.durable))
    case _ => s.stored == done && s.log == logged
  }

  ghost predicate HistoryGood(s: State) {
    && 0 <= Head(s) && Chain(s.history, s.writers, Head(s), s.lastSequence)
    && s.fileStart <= |s.log|
    && forall i :: 0 <= i < |s.history| && s.history[i].outcome == Succeeded && s.history[i].group.sync ==>
      s.history[i].group in s.durable
  }

  ghost predicate Inv(s: State) {
    QueueGood(s) && OthersGood(s) && FrontGood(s) && HistoryGood(s)
  }

  /** A call past the wait loop is the one at the front. */
  lemma LeaderIsFront(s: State, id: nat, pc: Pc)
    requires QueueGood(s) && OthersGood(s) && At(s, id, pc) && !pc.Waiting? && !pc.Returned?
    ensures id == Head(s) && FrontPc(s) == pc && s.queue != [] && s.queue[0] == id
  {
  }

  lemma {:induction false} ChainKeepsPrefix(history: seq<Finished>, writers: seq<Writer>, end: nat, last: nat,
                                            w: Writer)
    requires Chain(history, writers, end, last)
    ensures Chain(history, writers + [w], end, last)
    decreases |history|
  {
    if history != [] {
      var f := history[|history| - 1];
      assert Members(f.group, writers + [w]) == Members(f.group, writers);
      ChainKeepsPrefix(history[..|history| - 1], writers, f.group.start, f.group.first - 1, w);
    }
  }

  lemma SameSlice(writers: seq<Writer>, w: Writer, a: nat, b: nat)
    requires a <= b <= |writers|
    ensures (writers + [w])[a..b] == writers[a..b]
  {
  }

  lemma EnqueueKeepsOthers(s: State, t: State, w: Writer)
    requires OthersGoodNow(s) && Enqueue(s, t, w)
    ensures OthersGoodNow(t) && FrontPc(t) == FrontPc(s) && Head(t) == Head(s)
  {
  }

  lemma EnqueueKeepsGroup(s: State, t: State, w: Writer, g: Group)
    requires QueueGood(s) && QueueGood(t) && Enqueue(s, t, w) && GroupGood(s, g)
    ensures GroupGood(t, g)
  {
    SameSlice(s.writers, w, g.start, g.start + g.count);
  }

  lemma EnqueueKeeps(s: State, t: State, w: Writer)
    requires Inv(s) && Enqueue(s, t, w)
    ensures Inv(t)
  {
    ChainKeepsPrefix(s.history, s.writers, Head(s), s.lastSequence, w);
    EnqueueKeepsOthers(s, t, w);
    match FrontPc(s)
    case Logging(g) => EnqueueKeepsGroup(s, t, w, g);
    case Syncing(g) => EnqueueKeepsGroup(s, t, w, g);
    case Inserting(g, k) => EnqueueKeepsGroup(s, t, w, g);
    case Ending(g, _, _, _) => EnqueueKeepsGroup(s, t, w, g);
    case _ =>
  }

  /** A step of the call at the front that leaves the queue as it is. */
  ghost predicate FrontMoves(s: State, t: State, pc: Pc) {
    && QueueGood(s) && s.queue != [] && !pc.Returned? && t.pcs == s.pcs[Head(s) := pc]
    && t.writers == s.writers && t.queue == s.queue && t.done == s.done && t.history == s.history
      && t.lastSequence == s.lastSequence
  }

  lemma FrontMoveKeepsOthers(s: State, t: State, pc: Pc)
    requires OthersGoodNow(s) && FrontMoves(s, t, pc)
    ensures OthersGoodNow(t) && FrontPc(t) == pc && Head(t) == Head(s)
  {
  }

  ghost predicate OthersGoodNow(s: State) {
    QueueGood(s) && OthersGood(s)
  }

  lemma ReturnKeepsOthers(s: State, t: State, id: nat)
    requires OthersGoodNow(s) && Return(s, t, id)
    ensures OthersGoodNow(t) && FrontPc(t) == FrontPc(s) && Head(t) == Head(s)
  {
  }

  lemma ReturnKeeps(s: State, t: State, id: nat)
    requires Inv(s) && Return(s, t, id)
    ensures Inv(t)
  {
    ReturnKeepsOthers(s, t, id);
  }

  lemma LeadKeeps(s: State, t: State, id: nat)
    requires Inv(s) && Lead(s, t, id)
    ensures Inv(t)
  {
    FrontMoveKeepsOthers(s, t, MakingRoom);
  }

  lemma SwitchLogKeeps(s: State, t: State, id: nat)
    requires Inv(s) && SwitchLog(s, t, id)
    ensures Inv(t)
  {
    LeaderIsFront(s, id, MakingRoom);
    assert OthersGoodNow(t) && FrontPc(t) == MakingRoom;
  }

  lemma WaitStepKeeps(s: State, t: State)
    requires Inv(s) && WaitStep(s, t)
    ensures Inv(t)
  {
    if w :| Enqueue(s, t, w) {
      EnqueueKeeps(s, t, w);
    } else if BackgroundFails(s, t) {
      assert FrontPc(t) == FrontPc(s);
    } else {
      var id :| Lead(s, t, id) || Return(s, t, id) || SwitchLog(s, t, id);
      if Lead(s, t, id) {
        LeadKeeps(s, t, id);
      } else if Return(s, t, id) {
        ReturnKeeps(s, t, id);
      } else {
        SwitchLogKeeps(s, t, id);
      }
    }
  }

  lemma BuildGroupKeeps(s: State, t: State, id: nat, last: nat)
    requires Inv(s) && BuildGroup(s, t, id, last)
    ensures Inv(t)
  {
    LeaderIsFront(s, id, MakingRoom);
    var g := t.pcs[id].g;
    FrontMoveKeepsOthers(s, t, Logging(g));
    assert Queued(s)[..last + 1] == s.writers[id..id + last + 1];
    forall i | id <= i < id + last + 1 && s.writers[i].sync ensures g.sync {
      assert s.writers[i] == Queued(s)[i - id];
      assert i > id ==> Joins(Queued(s), i - id);
    }
  }

  lemma RecordStepKeeps(s: State, t: State, id: nat, g: Group)
    requires Inv(s) && (AddRecord(s, t, id, g) || AddRecordFails(s, t, id, g))
    ensures Inv(t)
  {
    LeaderIsFront(s, id, Logging(g));
    FrontMoveKeepsOthers(s, t, t.pcs[id]);
  }

  lemma SyncStepKeeps(s: State, t: State, id: nat, g: Group)
    requires Inv(s) && (Sync(s, t, id, g) || SyncFails(s, t, id, g))
    ensures Inv(t)
  {
    LeaderIsFront(s, id, Syncing(g));
    FrontMoveKeepsOthers(s, t, t.pcs[id]);
    assert s.log[|s.log| - 1] == g;
  }

  lemma InsertStepKeeps(s: State, t: State, id: nat, g: Group, k: nat)
    requires Inv(s) && (InsertOne(s, t, id, g, k) || (k == |g.ops| && InsertedAll(s, t, id, g)))
    ensures Inv(t)
  {
    LeaderIsFront(s, id, Inserting(g, k));
    FrontMoveKeepsOthers(s, t, t.pcs[id]);
    if k < |g.ops| {
      assert Entries(g, k + 1) == Entries(g, k) + {(g.first + k, g.ops[k])};
    }
  }

  lemma LeaderStepKeeps(s: State, t: State)
    requires Inv(s) && LeaderStep(s, t)
    ensures Inv(t)
  {
    if id, last :| BuildGroup(s, t, id, last) {
      BuildGroupKeeps(s, t, id, last);
    } else if id, g, k :| InsertOne(s, t, id, g, k) {
      InsertStepKeeps(s, t, id, g, k);
    } else {
      var id, g :| AddRecord(s, t, id, g) || AddRecordFails(s, t, id, g) || Sync(s, t, id, g) || SyncFails(s, t, id, g)
        || InsertedAll(s, t, id, g);
      if AddRecord(s, t, id, g) || AddRecordFails(s, t, id, g) {
        RecordStepKeeps(s, t, id, g);
      } else if InsertedAll(s, t, id, g) {
        InsertStepKeeps(s, t, id, g, |g.ops|);
      } else {
        SyncStepKeeps(s, t, id, g);
      }
    }
  }

  /** The front leaves with its group: f is added to the history. */
  ghost predicate Leaves(s: State, t: State, f: Finished) {
    && QueueGood(s) && f.group.start == Head(s) && 0 < f.group.count <= |s.queue|
    && t.writers == s.writers && t.pcs == s.pcs[Head(s) := Returned(f.outcome)] && t.queue == s.queue[f.group.count..]
    && t.done == s.done + Told(f.group.start, f.group.count, f.outcome) && t.history == s.history + [f]
    && t.log == s.log && t.fileStart == s.fileStart && t.durable == s.durable && t.stored == s.stored
    && t.lastSequence == s.lastSequence + |f.group.ops|
  }

  lemma OutcomeKept(history: seq<Finished>, f: Finished, id: nat, outcome: Outcome)
    requires HasOutcome(history, id, outcome)
    ensures HasOutcome(history + [f], id, outcome)
  {
    var i :| 0 <= i < |history| && Covers(history[i].group, id) && history[i].outcome == outcome;
    assert (history + [f])[i] == history[i];
  }

  lemma LeavingKeepsOthers(s: State, t: State, f: Finished)
    requires OthersGoodNow(s) && Leaves(s, t, f)
    ensures OthersGoodNow(t) && FrontPc(t).Waiting?
  {
    var g := f.group;
    assert t.history[|s.history|] == f;
    forall id: nat | id < Head(t)
      ensures (t.pcs[id].Returned? && HasOutcome(t.history, id, t.pcs[id].outcome))
           || (t.pcs[id].Waiting? && id in t.done && HasOutcome(t.history, id, t.done[id]))
    {
      if id < Head(s) {
        OutcomeKept(s.history, f, id, if s.pcs[id].Returned? then s.pcs[id].outcome else s.done[id]);
      } else {
        assert Covers(g, id);
      }
    }
  }

  lemma LeavingKeepsHistory(s: State, t: State, f: Finished)
    requires HistoryGood(s) && Leaves(s, t, f)
    requires f.group.first == s.lastSequence + 1 && Sound(f, s.writers)
    requires f.outcome == Succeeded && f.group.sync ==> f.group in s.durable
    ensures HistoryGood(t)
  {
    assert t.history[..|t.history| - 1] == s.history;
  }

  lemma LeavingKeepsData(s: State, t: State, f: Finished)
    requires Leaves(s, t, f)
    requires s.stored == StoredBy(s.history) + if f.outcome == Succeeded then Entries(f.group, |f.group.ops|) else {}
    requires s.log == LoggedBy(s.history) + if f.logged then [f.group] else []
    ensures t.stored == StoredBy(t.history) && t.log == LoggedBy(t.history)
  {
    assert t.history[..|t.history| - 1] == s.history;
  }

  /** What the history may take over from the front. */
  ghost predicate CanLeave(s: State, f: Finished) {
    && f.group.first == s.lastSequence + 1 && Sound(f, s.writers)
    && (f.outcome == Succeeded && f.group.sync ==> f.group in s.durable)
    && s.stored == StoredBy(s.history) + (if f.outcome == Succeeded then Entries(f.group, |f.group.ops|) else {})
    && s.log == LoggedBy(s.history) + (if f.logged then [f.group] else [])
  }

  lemma LeavingKeeps(s: State, t: State, f: Finished)
    requires OthersGoodNow(s) && HistoryGood(s) && Leaves(s, t, f) && CanLeave(s, f)
    ensures Inv(t)
  {
    LeavingKeepsOthers(s, t, f);
    LeavingKeepsHistory(s, t, f);
    LeavingKeepsData(s, t, f);
    FrontIsNew(t);
  }

  /** A front that has only just become one holds no group yet. */
  lemma FrontIsNew(t: State)
    requires OthersGoodNow(t) && t.stored == StoredBy(t.history) && t.log == LoggedBy(t.history) && FrontPc(t).Waiting?
    ensures FrontGood(t)
  {
  }

  lemma AloneCanLeave(s: State, t: State, id: nat, outcome: Outcome)
    requires OthersGoodNow(s) && FrontGood(s) && LeaveAlone(s, t, id, outcome)
    ensures CanLeave(s, t.history[|s.history|])
  {
    LeaderIsFront(s, id, MakingRoom);
    if outcome == Succeeded {
      NoBatchNoOps(s.writers, id);
    }
    assert s.stored + {} == s.stored && s.log + [] == s.log;
  }

  lemma NoBatchNoOps(writers: seq<Writer>, id: nat)
    requires id < |writers| && writers[id].batch == None
    ensures BatchOps(writers[id..id + 1]) == []
  {
    assert writers[id..id + 1] == [writers[id]] && [writers[id]][..0] == [];
  }

  lemma AloneLeaves(s: State, t: State, id: nat, outcome: Outcome)
    requires OthersGoodNow(s) && LeaveAlone(s, t, id, outcome)
    ensures Leaves(s, t, t.history[|s.history|])
  {
    LeaderIsFront(s, id, MakingRoom);
    assert Told(id, 1, outcome) == map[];
  }

  lemma LeaveAloneKeeps(s: State, t: State, id: nat, outcome: Outcome)
    requires Inv(s) && LeaveAlone(s, t, id, outcome)
    ensures Inv(t)
  {
    AloneLeaves(s, t, id, outcome);
    AloneCanLeave(s, t, id, outcome);
    LeavingKeeps(s, t, t.history[|s.history|]);
  }

  lemma FinishKeeps(s: State, t: State, id: nat, g: Group, outcome: Outcome, logged: bool, syncError: bool)
    requires Inv(s) && Finish(s, t, id, g, outcome, logged, syncError)
    ensures Inv(t)
  {
    LeaderIsFront(s, id, Ending(g, outcome, logged, syncError));
    var f := Finished(g, outcome, logged);
    assert Leaves(s, t, f);
    LeavingKeeps(s, t, f);
  }

  lemma StepKeepsInv(s: State, t: State)
    requires Inv(s) && Step(s, t)
    ensures Inv(t)
  {
    if WaitStep(s, t) {
      WaitStepKeeps(s, t);
    } else if LeaderStep(s, t) {
      LeaderStepKeeps(s, t);
    } else if id, outcome :| LeaveAlone(s, t, id, outcome) {
      LeaveAloneKeeps(s, t, id, outcome);
    } else {
      var id, g, outcome, logged, syncError :| Finish(s, t, id, g, outcome, logged, syncError);
      FinishKeeps(s, t, id, g, outcome, logged, syncError);
    }
  }

  ghost predicate Run(states: seq<State>) {
    IsRun((s, t) => Step(s, t), states) && Init(states[0])
  }

  lemma RunKeepsInv(states: seq<State>, i: nat)
    requires Run(states) && i < |states|
    ensures Inv(states[i])
  {
    forall s, t | Inv(s) && Step(s, t) ensures Inv(t) {
      StepKeepsInv(s, t);
    }
    KeptByRun((s, t) => Step(s, t), s => Inv(s), states, i);
  }

  /** At most one writer is past the wait loop, so at most one is writing the log or the memtable. */
  lemma OneLeader(states: seq<State>, i: nat, a: nat, b: nat)
    requires Run(states) && i < |states| && a < |states[i].pcs| && b < |states[i].pcs|
    requires !states[i].pcs[a].Waiting? && !states[i].pcs[a].Returned? && !states[i].pcs[b].Waiting?
      && !states[i].pcs[b].Returned?
    ensures a == b
  {
    RunKeepsInv(states, i);
    LeaderIsFront(states[i], a, states[i].pcs[a]);
    LeaderIsFront(states[i], b, states[i].pcs[b]);
  }

  lemma {:induction false} GroupBounds(history: seq<Finished>, writers: seq<Writer>, end: nat, last: nat, i: nat)
    requires Chain(history, writers, end, last) && i < |history|
    ensures Sound(history[i], writers)
    ensures history[i].group.start + history[i].group.count <= end
      && history[i].group.first + |history[i].group.ops| <= last + 1
  {
    var n := |history| - 1;
    if i < n {
      var g := history[n].group;
      GroupBounds(history[..n], writers, g.start, g.first - 1, i);
      assert history[..n][i] == history[i];
    }
  }

  /** Groups are disjoint and in order, both as stretches of the queue and as ranges of numbers. */
  lemma {:induction false} GroupsInOrder(history: seq<Finished>, writers: seq<Writer>, end: nat, last: nat, i: nat,
                                         j: nat)
    requires Chain(history, writers, end, last) && i < j < |history|
    ensures history[i].group.start + history[i].group.count <= history[j].group.start
    ensures history[i].group.first + |history[i].group.ops| <= history[j].group.first
  {
    var n := |history| - 1;
    var front, g := history[..n], history[n].group;
    assert front[i] == history[i];
    if j < n {
      assert front[j] == history[j];
      GroupsInOrder(front, writers, g.start, g.first - 1, i, j);
    } else {
      GroupBounds(front, writers, g.start, g.first - 1, i);
    }
  }

  /** Nobody before the end of the chain is left out. */
  lemma {:induction false} EveryoneCovered(history: seq<Finished>, writers: seq<Writer>, end: nat, last: nat, id: nat)
    returns (i: nat)
    requires Chain(history, writers, end, last) && id < end
    ensures i < |history| && Covers(history[i].group, id)
    decreases |history|
  {
    var n := |history| - 1;
    var g := history[n].group;
    if id < g.start {
      i := EveryoneCovered(history[..n], writers, g.start, g.first - 1, id);
      assert history[..n][i] == history[i];
    } else {
      i := n;
    }
  }

  /** Whoever has left the queue was in exactly one group. */
  lemma ExactlyOneGroup(states: seq<State>, i: nat, id: nat)
    requires Run(states) && i < |states| && id < Head(states[i])
    ensures exists k :: 0 <= k < |states[i].history| && Covers(states[i].history[k].group, id)
    ensures forall k, l :: 0 <= k < l < |states[i].history| && Covers(states[i].history[k].group, id) ==>
      !Covers(states[i].history[l].group, id)
  {
    RunKeepsInv(states, i);
    var s := states[i];
    var k := EveryoneCovered(s.history, s.writers, Head(s), s.lastSequence, id);
    forall k, l | 0 <= k < l < |s.history| && Covers(s.history[k].group, id) ensures !Covers(s.history[l].group, id) {
      GroupsInOrder(s.history, s.writers, Head(s), s.lastSequence, k, l);
    }
  }

  /** What a reader at this sequence number can see. */
  function VisibleAt(stored: Stored, snapshot: nat): Stored {
    set x | x in stored && x.0 <= snapshot
  }

  lemma {:induction false} StoredBelow(history: seq<Finished>, writers: seq<Writer>, end: nat, last: nat)
    requires Chain(history, writers, end, last)
    ensures forall x :: x in StoredBy(history) ==> 0 < x.0 <= last
    decreases |history|
  {
    if history != [] {
      var g := history[|history| - 1].group;
      StoredBelow(history[..|history| - 1], writers, g.start, g.first - 1);
    }
  }

  /** What the group being inserted has in the memtable so far is past LastSequence. */
  lemma UnfinishedIsInvisible(s: State)
    requires Inv(s)
    ensures VisibleAt(s.stored, s.lastSequence) == StoredBy(s.history) <= s.stored
  {
    StoredBelow(s.history, s.writers, Head(s), s.lastSequence);
  }

  lemma {:induction false} GroupStored(history: seq<Finished>, writers: seq<Writer>, end: nat, last: nat, i: nat,
                                       k: nat, op: Op)
    requires Chain(history, writers, end, last) && i < |history| && k < |history[i].group.ops|
    ensures (history[i].group.first + k, op) in StoredBy(history) <==>
      history[i].outcome == Succeeded && op == history[i].group.ops[k]
    decreases |history|
  {
    var n := |history| - 1;
    var f, g := history[n], history[n].group;
    var x := (history[i].group.first + k, op);
    StoredBelow(history[..n], writers, g.start, g.first - 1);
    InEntries(g, x);
    assert x in StoredBy(history) <==>
      x in StoredBy(history[..n]) || (f.outcome == Succeeded && x in Entries(g, |g.ops|));
    if i == n {
      assert x.0 > g.first - 1 && x !in StoredBy(history[..n]);
    } else {
      assert history[..n][i] == history[i];
      GroupStored(history[..n], writers, g.start, g.first - 1, i, k, op);
      GroupBounds(history[..n], writers, g.start, g.first - 1, i);
      assert x.0 < g.first;
    }
  }

  lemma InEntries(g: Group, x: (nat, Op))
    ensures x in Entries(g, |g.ops|) <==> g.first <= x.0 < g.first + |g.ops| && g.ops[x.0 - g.first] == x.1
  {
    if g.first <= x.0 < g.first + |g.ops| {
      assert x.0 == g.first + (x.0 - g.first);
    }
  }

  lemma GroupVisible(s: State, j: nat, k: nat, op: Op)
    requires Inv(s) && j < |s.history| && k < |s.history[j].group.ops|
    ensures (s.history[j].group.first + k, op) in VisibleAt(s.stored, s.lastSequence) <==>
      s.history[j].outcome == Succeeded && op == s.history[j].group.ops[k]
  {
    UnfinishedIsInvisible(s);
    GroupStored(s.history, s.writers, Head(s), s.lastSequence, j, k, op);
  }

  /** A reader at LastSequence sees all of every group that succeeded, nothing of one that failed,
      and nothing else. */
  lemma NoPartialGroup(states: seq<State>, i: nat, j: nat, k: nat, op: Op)
    requires Run(states) && i < |states| && j < |states[i].history| && k < |states[i].history[j].group.ops|
    ensures var s := states[i]; var g := s.history[j].group;
            (g.first + k, op) in VisibleAt(s.stored, s.lastSequence) <==>
              s.history[j].outcome == Succeeded && op == g.ops[k]
    ensures VisibleAt(states[i].stored, states[i].lastSequence) == StoredBy(states[i].history)
  {
    RunKeepsInv(states, i);
    UnfinishedIsInvisible(states[i]);
    GroupVisible(states[i], j, k, op);
  }

  /** No later step changes what a reader at an earlier LastSequence sees. */
  lemma SnapshotIsStable(s: State, t: State, snapshot: nat)
    requires Inv(s) && Step(s, t) && snapshot <= s.lastSequence
    ensures VisibleAt(t.stored, snapshot) == VisibleAt(s.stored, snapshot) && s.lastSequence <= t.lastSequence
  {
    if id: nat, g, k: nat :| InsertOne(s, t, id, g, k) {
      LeaderIsFront(s, id, Inserting(g, k));
      assert t.stored == s.stored + {(g.first + k, g.ops[k])};
    } else {
      OnlyInsertsStore(s, t);
    }
  }

  /** Nor does any number of later steps. */
  lemma SnapshotStaysStable(states: seq<State>, i: nat, j: nat, snapshot: nat)
    requires Run(states) && i <= j < |states| && snapshot <= states[i].lastSequence
    ensures VisibleAt(states[j].stored, snapshot) == VisibleAt(states[i].stored, snapshot)
  {
    RunKeepsInv(states, i);
    var seen := VisibleAt(states[i].stored, snapshot);
    forall s, t | Sees(s, snapshot, seen) && Step(s, t) ensures Sees(t, snapshot, seen) {
      SnapshotIsStable(s, t, snapshot);
      StepKeepsInv(s, t);
    }
    KeptByRun((s, t) => Step(s, t), s => Sees(s, snapshot, seen), states[i..], j - i);
  }

  ghost predicate Sees(s: State, snapshot: nat, seen: Stored) {
    Inv(s) && snapshot <= s.lastSequence && VisibleAt(s.stored, snapshot) == seen
  }

  lemma OnlyInsertsStore(s: State, t: State)
    requires Step(s, t) && !exists id, g, k :: InsertOne(s, t, id, g, k)
    ensures t.stored == s.stored && s.lastSequence <= t.lastSequence
  {
  }

  lemma {:induction false} BatchWithin(writers: seq<Writer>, i: nat)
    requires i < |writers|
    ensures |BatchOps(writers[..i])| + |OpsOf(writers[i])| <= |BatchOps(writers)|
    ensures BatchOps(writers)[|BatchOps(writers[..i])|..|BatchOps(writers[..i])| + |OpsOf(writers[i])|]
      == OpsOf(writers[i])
  {
    var n := |writers| - 1;
    if i < n {
      BatchWithin(writers[..n], i);
      assert writers[..n][..i] == writers[..i];
    }
  }

  /** The operations of writer id stand together in the group, from the offset on. */
  ghost predicate StandsAt(s: State, g: Group, id: nat, offset: nat) {
    && id < |s.writers| && offset + |OpsOf(s.writers[id])| <= |g.ops|
    && g.ops[offset..offset + |OpsOf(s.writers[id])|] == OpsOf(s.writers[id])
  }

  lemma OpsStandInGroup(s: State, f: Finished, id: nat) returns (offset: nat)
    requires Sound(f, s.writers) && f.outcome == Succeeded && Covers(f.group, id)
    ensures StandsAt(s, f.group, id, offset)
  {
    var members := Members(f.group, s.writers);
    var i := id - f.group.start;
    assert members[i] == s.writers[id];
    offset := |BatchOps(members[..i])|;
    BatchWithin(members, i);
  }

  lemma GroupOnDisk(s: State, j: nat, id: nat)
    requires Inv(s) && j < |s.history| && s.history[j].outcome == Succeeded && Covers(s.history[j].group, id)
    ensures id < |s.writers|
    ensures s.writers[id].batch.Some? ==> s.history[j].group in s.log
                                          && (s.writers[id].sync ==> s.history[j].group in s.durable)
  {
    GroupBounds(s.history, s.writers, Head(s), s.lastSequence, j);
    if s.writers[id].batch.Some? {
      GroupLogged(s.history, j);
      FrontLogs(s);
    }
  }

  /** The writer's operations are visible under the numbers from here on. */
  ghost predicate OpsVisible(s: State, id: nat, from: nat)
    requires id < |s.writers|
  {
    forall k :: 0 <= k < |OpsOf(s.writers[id])| ==>
      (from + k, OpsOf(s.writers[id])[k]) in VisibleAt(s.stored, s.lastSequence)
  }

  lemma CoveredOpsVisible(s: State, j: nat, id: nat, offset: nat)
    requires Inv(s) && j < |s.history| && s.history[j].outcome == Succeeded
      && StandsAt(s, s.history[j].group, id, offset)
    ensures OpsVisible(s, id, s.history[j].group.first + offset)
  {
    var g, ops := s.history[j].group, OpsOf(s.writers[id]);
    forall k | 0 <= k < |ops| ensures (g.first + offset + k, ops[k]) in VisibleAt(s.stored, s.lastSequence) {
      assert ops[k] == g.ops[offset..offset + |ops|][k];
      GroupVisible(s, j, offset + k, ops[k]);
    }
  }

  lemma SucceededIsCovered(s: State, id: nat) returns (j: nat)
    requires QueueGood(s) && OthersGood(s) && FrontGood(s) && At(s, id, Returned(Succeeded))
    ensures j < |s.history| && Covers(s.history[j].group, id) && s.history[j].outcome == Succeeded
  {
    assert HasOutcome(s.history, id, Succeeded);
    j :| 0 <= j < |s.history| && Covers(s.history[j].group, id) && s.history[j].outcome == Succeeded;
  }

  lemma AcknowledgedIn(s: State, id: nat) returns (g: Group, offset: nat)
    requires Inv(s) && At(s, id, Returned(Succeeded))
    ensures Covers(g, id) && StandsAt(s, g, id, offset) && OpsVisible(s, id, g.first + offset)
    ensures s.writers[id].batch.Some? ==> g in s.log && (s.writers[id].sync ==> g in s.durable)
  {
    var j := SucceededIsCovered(s, id);
    g := s.history[j].group;
    GroupBounds(s.history, s.writers, Head(s), s.lastSequence, j);
    offset := OpsStandInGroup(s, s.history[j], id);
    GroupOnDisk(s, j, id);
    CoveredOpsVisible(s, j, id, offset);
  }

  /** A write that returned success: its operations are there for every reader at LastSequence, under
      consecutive numbers, its group is in the log, and on disk if the write asked for that. */
  lemma AcknowledgedWrite(states: seq<State>, i: nat, id: nat) returns (g: Group, offset: nat)
    requires Run(states) && i < |states| && At(states[i], id, Returned(Succeeded))
    ensures Covers(g, id) && StandsAt(states[i], g, id, offset) && OpsVisible(states[i], id, g.first + offset)
    ensures states[i].writers[id].batch.Some? ==>
      g in states[i].log && (states[i].writers[id].sync ==> g in states[i].durable)
  {
    RunKeepsInv(states, i);
    g, offset := AcknowledgedIn(states[i], id);
  }

  lemma FrontLogs(s: State)
    requires Inv(s)
    ensures |LoggedBy(s.history)| <= |s.log| && s.log[..|LoggedBy(s.history)|] == LoggedBy(s.history)
  {
  }

  lemma {:induction false} GroupLogged(history: seq<Finished>, i: nat)
    requires i < |history| && history[i].logged
    ensures history[i].group in LoggedBy(history)
    decreases |history|
  {
    var n := |history| - 1;
    if i < n {
      assert history[..n][i] == history[i];
      GroupLogged(history[..n], i);
    }
  }
}
