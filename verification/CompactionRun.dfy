/** The Compaction object and the merging loop DoCompactionWork. */
module CompactionRun {
  import opened DbFormat
  import opened Versions
  import opened DropRule

  /** No file at level + 2 or deeper has the user key in its range. */
  ghost predicate IsBase(v: Version, level: nat, user: UserKey) {
    forall l, f :: level + 2 <= l < NUM_LEVELS && f in v[l] ==> user < f.smallest.user || f.largest.user < user
  }

  ghost function BaseTest(v: Version, level: nat): UserKey -> bool {
    user => IsBase(v, level, user)
  }

  ghost function SizeOf(files: seq<File>, low: nat, high: nat): nat
    requires low <= high <= |files|
    decreases high
  {
    if low == high then 0 else SizeOf(files, low, high - 1) + files[high - 1].size
  }

  /** The files before a level's pointer end before every key still to come. */
  ghost predicate PassedBy(v: Version, level: nat, ptrs: seq<nat>, lastKey: Option<UserKey>) {
    && |ptrs| == NUM_LEVELS
    && (forall l :: level + 2 <= l < NUM_LEVELS ==> ptrs[l] <= |v[l]|)
    && (forall l, i :: level + 2 <= l < NUM_LEVELS && 0 <= i < ptrs[l] ==>
      lastKey.Some? && v[l][i].largest.user < lastKey.value)
  }

  class Compaction {
    const level: nat
    const inputVersion: Version
    const grandparents: seq<File>
    const maxOutputFileSize: nat
    const maxGrandParentOverlapBytes: nat
    var levelPtrs: array<nat>
    var grandparentIndex: nat
    var seenKey: bool
    var overlappedBytes: nat
    ghost var lastKey: Option<UserKey>

    ghost predicate Valid()
      reads this, levelPtrs
    {
      && level + 1 < NUM_LEVELS && WellFormed(inputVersion)
      && levelPtrs.Length == NUM_LEVELS
      && grandparentIndex <= |grandparents|
      && PassedBy(inputVersion, level, levelPtrs[..], lastKey)
    }

    constructor (level: nat, inputVersion: Version, grandparents: seq<File>, maxOutputFileSize: nat,
                 maxGrandParentOverlapBytes: nat)
      requires level + 1 < NUM_LEVELS && WellFormed(inputVersion)
      ensures Valid() && lastKey == None && fresh(levelPtrs)
      ensures this.level == level && this.inputVersion == inputVersion && this.grandparents == grandparents
      ensures this.maxOutputFileSize == maxOutputFileSize
        && this.maxGrandParentOverlapBytes == maxGrandParentOverlapBytes
      ensures grandparentIndex == 0 && !seenKey && overlappedBytes == 0
    {
      this.level, this.inputVersion, this.grandparents := level, inputVersion, grandparents;
      this.maxOutputFileSize, this.maxGrandParentOverlapBytes := maxOutputFileSize, maxGrandParentOverlapBytes;
      levelPtrs := new nat[NUM_LEVELS](_ => 0);
      grandparentIndex, seenKey, overlappedBytes := 0, false, 0;
      lastKey := None;
    }

    /** Moves the level's pointer past the files that end before the key. */
    method AdvancePointer(l: nat, user: UserKey)
      requires Valid() && lastKey == Some(user) && level + 2 <= l < NUM_LEVELS
      modifies levelPtrs
      ensures Valid()
      ensures levelPtrs[l] < |inputVersion[l]| ==> user <= inputVersion[l][levelPtrs[l]].largest.user
    {
      var files := inputVersion[l];
      while levelPtrs[l] < |files| && files[levelPtrs[l]].largest.user < user
        invariant Valid()
        decreases |files| - levelPtrs[l]
      {
        ghost var ptrs := levelPtrs[..];
        levelPtrs[l] := levelPtrs[l] + 1;
        assert levelPtrs[..] == ptrs[l := ptrs[l] + 1];
      }
    }

    /** Exact for non-decreasing keys, though the level pointers only ever move forward. */
    method IsBaseLevelForKey(user: UserKey) returns (base: bool)
      requires Valid() && (lastKey.Some? ==> lastKey.value <= user)
      modifies this`lastKey, levelPtrs
      ensures Valid() && lastKey == Some(user) && levelPtrs == old(levelPtrs)
      ensures base <==> IsBase(inputVersion, level, user)
    {
      lastKey := Some(user);
      var l := level + 2;
      while l < NUM_LEVELS
        invariant level + 2 <= l && (l <= NUM_LEVELS || l == level + 2) && Valid()
        invariant levelPtrs == old(levelPtrs) && lastKey == Some(user)
        invariant forall m, f :: level + 2 <= m < l && m < NUM_LEVELS && f in inputVersion[m] ==>
          user < f.smallest.user || f.largest.user < user
      {
        AdvancePointer(l, user);
        var files := inputVersion[l];
        if levelPtrs[l] < |files| && user >= files[levelPtrs[l]].smallest.user {
          assert files[levelPtrs[l]] in inputVersion[l];
          return false;
        }
        RestIsBeyond(files, levelPtrs[l], user);
        l := l + 1;
      }
      return true;
    }

    /** A new output is due when the grandparent bytes passed since the last cut exceed the limit. */
    method ShouldStopBefore(key: InternalKey) returns (stop: bool)
      requires Valid()
      modifies this`grandparentIndex, this`seenKey, this`overlappedBytes
      ensures Valid() && seenKey && grandparentIndex >= old(grandparentIndex)
      ensures forall i :: old(grandparentIndex) <= i < grandparentIndex ==> Before(grandparents[i].largest, key)
      ensures grandparentIndex < |grandparents| ==> !Before(grandparents[grandparentIndex].largest, key)
      ensures var passed := old(overlappedBytes) + if old(seenKey)
        then SizeOf(grandparents, old(grandparentIndex), grandparentIndex) else 0;
        stop == (passed > maxGrandParentOverlapBytes) && overlappedBytes == if stop then 0 else passed
    {
      while grandparentIndex < |grandparents| && Before(grandparents[grandparentIndex].largest, key)
        invariant Valid() && old(grandparentIndex) <= grandparentIndex && seenKey == old(seenKey)
        invariant forall i :: old(grandparentIndex) <= i < grandparentIndex ==> Before(grandparents[i].largest, key)
        invariant overlappedBytes ==
          old(overlappedBytes) + if seenKey then SizeOf(grandparents, old(grandparentIndex), grandparentIndex) else 0
      {
        if seenKey {
          overlappedBytes := overlappedBytes + grandparents[grandparentIndex].size;
        }
        grandparentIndex := grandparentIndex + 1;
      }
      seenKey := true;
      stop := overlappedBytes > maxGrandParentOverlapBytes;
      if stop {
        overlappedBytes := 0;
      }
    }

    /** What the loop remembers of the entry before position n. */
    ghost predicate Remembers(input: seq<Entry>, n: nat, currentUserKey: Option<UserKey>, lastSequenceForKey: nat)
      reads this
      requires n <= |input|
    {
      if n == 0 then
        currentUserKey == None && lastKey == None
      else
        && currentUserKey == Some(input[n - 1].key.user) && lastSequenceForKey == input[n - 1].key.sequence
        && (lastKey.Some? ==> lastKey.value <= input[n - 1].key.user)
    }

    method DecideDrop(input: seq<Entry>, n: nat, smallestSnapshot: nat, currentUserKey: Option<UserKey>,
                      lastSequenceForKey: nat)
      returns (drop: bool, newUserKey: Option<UserKey>, newSequence: nat)
      requires Valid() && Sorted(input) && smallestSnapshot < MAX_SEQUENCE_NUMBER && n < |input|
      requires Remembers(input, n, currentUserKey, lastSequenceForKey)
      modifies this`lastKey, levelPtrs
      ensures Valid() && levelPtrs == old(levelPtrs) && Remembers(input, n + 1, newUserKey, newSequence)
      ensures drop == Dropped(input, smallestSnapshot, BaseTest(inputVersion, level), n)
    {
      var e := input[n];
      assert n > 0 ==> Before(input[n - 1].key, e.key);
      drop, newUserKey, newSequence := false, currentUserKey, lastSequenceForKey;
      if newUserKey == None || newUserKey.value != e.key.user {
        newUserKey := Some(e.key.user);
        newSequence := MAX_SEQUENCE_NUMBER;
      }
      if newSequence <= smallestSnapshot {
        drop := true;
      } else if e.key.kind.Deletion? && e.key.sequence <= smallestSnapshot {
        drop := IsBaseLevelForKey(e.key.user);
      }
      newSequence := e.key.sequence;
    }

    /** DoCompactionWork: the sorted input, less what the drop rule removes, cut into files. */
    method DoCompactionWork(input: seq<Entry>, smallestSnapshot: nat, fileSize: seq<Entry> -> nat, numbers: nat -> nat)
      returns (outputs: seq<File>)
      requires Valid() && lastKey == None && Sorted(input) && smallestSnapshot < MAX_SEQUENCE_NUMBER
      modifies this, levelPtrs
      ensures IsCut(outputs, Kept(input, smallestSnapshot, BaseTest(inputVersion, level), |input|), numbers)
      ensures forall o :: o in outputs ==> o.size == fileSize(o.entries)
                                           && NotFullBefore(o.entries, |o.entries|, fileSize, maxOutputFileSize)
    {
      ghost var isBase := BaseTest(inputVersion, level);
      var state := CompactionState([], None, SeekKey(0.0, 0), SeekKey(0.0, 0));
      var currentUserKey := None;
      var lastSequenceForKey: nat := MAX_SEQUENCE_NUMBER;
      for n := 0 to |input|
        invariant Valid() && levelPtrs == old(levelPtrs)
        invariant Remembers(input, n, currentUserKey, lastSequenceForKey)
        invariant Holds(state, numbers, Kept(input, smallestSnapshot, isBase, n))
          && SizesHold(state, fileSize, maxOutputFileSize)
      {
        var stop := ShouldStopBefore(input[n].key);
        if stop {
          state := CloseOutput(state, fileSize, numbers, maxOutputFileSize, Kept(input, smallestSnapshot, isBase, n));
        }
        var drop;
        drop, currentUserKey, lastSequenceForKey :=
          DecideDrop(input, n, smallestSnapshot, currentUserKey, lastSequenceForKey);
        if !drop {
          state := Store(state, input[n], fileSize, numbers, maxOutputFileSize,
                         Kept(input, smallestSnapshot, isBase, n));
        }
      }
      state := CloseOutput(state, fileSize, numbers, maxOutputFileSize, Kept(input, smallestSnapshot, isBase, |input|));
      outputs := state.outputs;
      assert Flatten(outputs) + [] == Flatten(outputs);
    }
  }

  /** In a sorted level the files after one that starts beyond the key start beyond it too. */
  lemma RestIsBeyond(files: seq<File>, ptr: nat, user: UserKey)
    requires SortedLevel(files) && ptr <= |files|
    requires forall i :: 0 <= i < ptr ==> files[i].largest.user <= user
    requires forall i :: 0 <= i < ptr ==> files[i].largest.user < user
    requires ptr < |files| ==> user < files[ptr].smallest.user
    ensures forall f :: f in files ==> user < f.smallest.user || f.largest.user < user
  {
    forall f | f in files ensures user < f.smallest.user || f.largest.user < user {
      var i :| 0 <= i < |files| && files[i] == f;
      assert i > ptr ==> BySmallestKey(files[ptr], files[i]);
    }
  }

  /** The outputs written so far and the table under construction, if any. */
  datatype CompactionState =
    CompactionState(outputs: seq<File>, builder: Option<seq<Entry>>, smallest: InternalKey, largest: InternalKey)

  /** The state has stored exactly the given entries. */
  ghost predicate Holds(state: CompactionState, numbers: nat -> nat, entries: seq<Entry>) {
    && Pieces(state.outputs, numbers)
    && Flatten(state.outputs) + Pending(state.builder) == entries
    && (state.builder.Some? ==>
      var b := state.builder.value;
      b != [] && state.smallest == b[0].key && state.largest == b[|b| - 1].key)
  }

  /** No shorter front of the entries had reached the size. */
  ghost predicate NotFullBefore(entries: seq<Entry>, n: nat, fileSize: seq<Entry> -> nat, limit: nat)
    requires n <= |entries|
  {
    forall k :: 0 < k < n ==> fileSize(entries[..k]) < limit
  }

  /** Every output ended as soon as it was large enough, and the one under construction is not yet. */
  ghost predicate SizesHold(state: CompactionState, fileSize: seq<Entry> -> nat, limit: nat) {
    && (forall o :: o in state.outputs ==> o.size == fileSize(o.entries)
                                           && NotFullBefore(o.entries, |o.entries|, fileSize, limit))
    && (state.builder.Some? ==> NotFullBefore(state.builder.value, |state.builder.value|, fileSize, limit)
                                && fileSize(state.builder.value) < limit)
  }

  /** FinishCompactionOutputFile: the table under construction becomes the next output file. */
  function FinishOutput(state: CompactionState, fileSize: seq<Entry> -> nat, numbers: nat -> nat): (r: CompactionState)
    requires state.builder.Some?
    ensures r.builder == None
    ensures forall entries :: Holds(state, numbers, entries) ==> Holds(r, numbers, entries)
    ensures |r.outputs| == |state.outputs| + 1 && r.outputs[..|state.outputs|] == state.outputs
    ensures var f := r.outputs[|state.outputs|]; f.entries == state.builder.value
                                                 && f.size == fileSize(state.builder.value)
  {
    var b := state.builder.value;
    var f := File(numbers(|state.outputs|), fileSize(b), state.smallest, state.largest, b);
    var outputs := state.outputs + [f];
    assert outputs[..|state.outputs|] == state.outputs;
    assert Flatten(outputs) + [] == Flatten(state.outputs) + b;
    state.(outputs := outputs, builder := None)
  }

  /** Opens an output file if there is none and adds the entry to it. */
  function AddEntry(state: CompactionState, e: Entry, numbers: nat -> nat): (r: CompactionState)
    ensures r.builder == Some(Pending(state.builder) + [e]) && r.outputs == state.outputs
    ensures forall entries :: Holds(state, numbers, entries) ==> Holds(r, numbers, entries + [e])
  {
    var b := Pending(state.builder);
    assert Flatten(state.outputs) + (b + [e]) == (Flatten(state.outputs) + b) + [e];
    state.(builder := Some(b + [e]), smallest := if b == [] then e.key else state.smallest, largest := e.key)
  }

  lemma AddKeepsSizes(state: CompactionState, e: Entry, fileSize: seq<Entry> -> nat, limit: nat)
    requires SizesHold(state, fileSize, limit)
    ensures var b := Pending(state.builder) + [e]; NotFullBefore(b, |b|, fileSize, limit)
  {
    var b := Pending(state.builder);
    forall k | 0 < k < |b| + 1 ensures fileSize((b + [e])[..k]) < limit {
      assert (b + [e])[..k] == if k == |b| then b else b[..k];
    }
  }

  /** The entry goes to the output under construction, which is finished once it is large enough. */
  method Store(state: CompactionState, e: Entry, fileSize: seq<Entry> -> nat, numbers: nat -> nat, limit: nat,
               ghost kept: seq<Entry>)
    returns (r: CompactionState)
    requires Holds(state, numbers, kept) && SizesHold(state, fileSize, limit)
    ensures Holds(r, numbers, kept + [e]) && SizesHold(r, fileSize, limit)
  {
    AddKeepsSizes(state, e, fileSize, limit);
    r := AddEntry(state, e, numbers);
    if fileSize(r.builder.value) >= limit {
      r := FinishOutput(r, fileSize, numbers);
    }
  }

  method CloseOutput(state: CompactionState, fileSize: seq<Entry> -> nat, numbers: nat -> nat, limit: nat,
                     ghost kept: seq<Entry>)
    returns (r: CompactionState)
    requires Holds(state, numbers, kept) && SizesHold(state, fileSize, limit)
    ensures Holds(r, numbers, kept) && SizesHold(r, fileSize, limit) && r.builder == None
  {
    r := if state.builder.Some? then FinishOutput(state, fileSize, numbers) else state;
  }

  function Pending(builder: Option<seq<Entry>>): seq<Entry> {
    if builder.Some? then builder.value else []
  }

  /** The entries of the files, one file after the other. */
  function Flatten(files: seq<File>): seq<Entry> {
    if files == [] then [] else Flatten(files[..|files| - 1]) + files[|files| - 1].entries
  }

  /** Non-empty files, numbered as NewFileNumber hands the numbers out, whose metadata names their
      first and last key. */
  ghost predicate Pieces(files: seq<File>, numbers: nat -> nat) {
    forall i :: 0 <= i < |files| ==>
      && files[i].number == numbers(i) && files[i].entries != []
      && files[i].smallest == files[i].entries[0].key
      && files[i].largest == files[i].entries[|files[i].entries| - 1].key
  }

  ghost predicate IsCut(files: seq<File>, entries: seq<Entry>, numbers: nat -> nat) {
    Pieces(files, numbers) && Flatten(files) == entries
  }
}
