// Internal keys and entries (db/dbformat.h, db/dbformat.cc).

/** The shapes every component of the store shares. */
module DbFormat {

  datatype Option<+T> = None | Some(value: T)

  /** A user key, known only through Comparator::Compare: its place in the comparator's order.
      Byte strings are countable, so every total order on them embeds in the reals; the module
      Comparator gives such an embedding for the default bytewise order. */
  type UserKey = real

  const NUM_LEVELS := 7
  const MAX_SEQUENCE_NUMBER := 0x100_0000_0000_0000 - 1
  const MAX_MEM_COMPACT_LEVEL := 2

  datatype ValueType = Deletion | Value

  /** Sequence numbers fill 56 bits, so that a type fits below them. */
  type SequenceNumber = n: nat | n <= MAX_SEQUENCE_NUMBER

  datatype InternalKey = InternalKey(user: UserKey, sequence: SequenceNumber, kind: ValueType)

  datatype Entry = Entry(key: InternalKey, value: string)

  /** PackSequenceAndType: the sequence number shifted left by 8, or-ed with the type. */
  function Tag(k: InternalKey): nat {
    256 * k.sequence + if k.kind.Value? then 1 else 0
  }

  /** InternalKeyComparator::Compare(a, b) < 0: increasing user key, then decreasing tag. */
  predicate Before(a: InternalKey, b: InternalKey) {
    a.user < b.user || (a.user == b.user && Tag(a) > Tag(b))
  }

  /** The key LookupKey builds: nothing at or below the snapshot sorts before it. */
  function SeekKey(user: UserKey, snapshot: SequenceNumber): InternalKey {
    InternalKey(user, snapshot, Value)
  }

  ghost predicate Sorted(entries: seq<Entry>) {
    forall i, j :: 0 <= i < j < |entries| ==> Before(entries[i].key, entries[j].key)
  }
}
