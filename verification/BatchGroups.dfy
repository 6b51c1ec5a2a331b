// Group commit: many writers, one leader at a time (DBImpl::Write, db/db_impl.cc).

/** How the leader gathers the batches queued behind its own. */
module BatchGroups {
  import opened DbFormat
  import opened WriteBatches

  /** A batch and the length of its byte form (WriteBatches.Rep). */
  datatype Batch = Batch(ops: seq<Op>, bytes: nat)

  /** A queued writer; one with no batch only asks for the memtable to be compacted. */
  datatype Writer = Writer(batch: Option<Batch>, sync: bool)

  function OpsOf(w: Writer): seq<Op> {
    if w.batch.Some? then w.batch.value.ops else []
  }

  function BatchOps(writers: seq<Writer>): seq<Op> {
    if writers == [] then [] else BatchOps(writers[..|writers| - 1]) + OpsOf(writers[|writers| - 1])
  }

  /** The bytes of the batches among the first n writers. */
  function TotalSize(writers: seq<Writer>, n: nat): nat
    requires n <= |writers|
  {
    if n == 0 then 0
    else
      var w := writers[n - 1];
      TotalSize(writers, n - 1) + if w.batch.Some? then w.batch.value.bytes else 0
  }

  /** The group may grow to a megabyte, but by no more than 128 KB if the first write is small. */
  function MaxSize(size: nat): nat {
    if size <= 131072 then size + 131072 else 1048576
  }

  /** Writer i may join: it does not ask for more than the leader does, and its batch still fits. */
  predicate Joins(writers: seq<Writer>, i: nat)
    requires 0 < i < |writers| && writers[0].batch.Some?
  {
    && (writers[i].sync ==> writers[0].sync)
    && (writers[i].batch.Some? ==> TotalSize(writers, i + 1) <= MaxSize(writers[0].batch.value.bytes))
  }

  /** The group ends at the first writer that may not join. */
  ghost predicate IsGroup(writers: seq<Writer>, last: nat) {
    && last < |writers| && writers[0].batch.Some?
    && (forall i :: 0 < i <= last ==> Joins(writers, i))
    && (last + 1 < |writers| ==> !Joins(writers, last + 1))
  }

  lemma OneMore(writers: seq<Writer>, i: nat)
    requires i < |writers|
    ensures BatchOps(writers[..i + 1]) == BatchOps(writers[..i]) + OpsOf(writers[i])
    ensures TotalSize(writers, i + 1) == TotalSize(writers, i) + if writers[i].batch.Some?
      then writers[i].batch.value.bytes else 0
  {
    assert writers[..i + 1][..i] == writers[..i];
  }

  lemma FirstAlone(writers: seq<Writer>)
    requires writers != [] && writers[0].batch.Some?
    ensures BatchOps(writers[..1]) == writers[0].batch.value.ops
      && TotalSize(writers, 1) == writers[0].batch.value.bytes
  {
    OneMore(writers, 0);
    assert writers[..0] == [];
  }

  method BuildBatchGroup(writers: seq<Writer>) returns (updates: seq<Op>, last: nat)
    requires writers != [] && writers[0].batch.Some?
    ensures IsGroup(writers, last) && updates == BatchOps(writers[..last + 1])
  {
    var first := writers[0];
    updates := first.batch.value.ops;
    var size := first.batch.value.bytes;
    var maxSize := if size <= 131072 then size + 131072 else 1048576;
    last := 0;
    FirstAlone(writers);
    assert maxSize == MaxSize(first.batch.value.bytes);
    var i := 1;
    while i < |writers|
      invariant 1 <= i <= |writers| && last == i - 1
      invariant size == TotalSize(writers, i) && updates == BatchOps(writers[..i])
      invariant forall k :: 0 < k < i ==> Joins(writers, k)
    {
      var w := writers[i];
      OneMore(writers, i);
      assert TotalSize(writers, i + 1) <= maxSize || w.batch == None || !Joins(writers, i);
      if w.sync && !first.sync {
        break;
      }
      if w.batch.Some? {
        size := size + w.batch.value.bytes;
        if size > maxSize {
          break;
        }
        updates := updates + w.batch.value.ops;
      }
      last := i;
      i := i + 1;
    }
  }
}
