/** What a committed group is to the rest of the engine: entries with sequence numbers. */
module GroupEntries {
  import opened DbFormat
  import opened Meaning
  import opened Coding
  import opened Comparator
  import opened WriteBatches

  function AsString(b: Bytes): string {
    seq(|b|, i requires 0 <= i < |b| => b[i] as char)
  }

  function EntryOf(op: Op, sequence: SequenceNumber): Entry {
    match op
    case Put(key, value) => Entry(InternalKey(Rank(key), sequence, Value), AsString(value))
    case Delete(key) => Entry(InternalKey(Rank(key), sequence, Deletion), "")
  }

  function EntriesOf(first: nat, ops: seq<Op>): set<Entry>
    requires first + |ops| <= MAX_SEQUENCE_NUMBER + 1
  {
    if ops == [] then {} else EntriesOf(first, ops[..|ops| - 1]) + {EntryOf(ops[|ops| - 1], first + |ops| - 1)}
  }

  /** The entries of a group are as many as its operations, under the numbers that group commit gives
      them: what a log append adds in the runs with crashes. */
  lemma {:induction false} GroupEntriesAreNumbered(first: nat, ops: seq<Op>)
    requires first + |ops| <= MAX_SEQUENCE_NUMBER + 1
    ensures |EntriesOf(first, ops)| == |ops| && DistinctSequences(EntriesOf(first, ops))
    ensures forall e :: e in EntriesOf(first, ops) ==> first <= e.key.sequence < first + |ops|
    decreases |ops|
  {
    if ops != [] {
      var n := |ops| - 1;
      GroupEntriesAreNumbered(first, ops[..n]);
      OneNewer(EntriesOf(first, ops[..n]), EntryOf(ops[n], first + n));
    }
  }

  lemma {:induction false} EveryOperationIsThere(first: nat, ops: seq<Op>, i: nat)
    requires first + |ops| <= MAX_SEQUENCE_NUMBER + 1 && i < |ops|
    ensures EntryOf(ops[i], first + i) in EntriesOf(first, ops)
    decreases |ops|
  {
    if i < |ops| - 1 {
      EveryOperationIsThere(first, ops[..|ops| - 1], i);
    }
  }

  lemma OneNewer(entries: set<Entry>, last: Entry)
    requires DistinctSequences(entries) && forall e :: e in entries ==> e.key.sequence < last.key.sequence
    ensures |entries + {last}| == |entries| + 1 && DistinctSequences(entries + {last})
  {
    assert last !in entries;
  }
}
