// Table files: data blocks, an index of shortened separators, and filters (table/table_builder.cc,
// table/table.cc, db/dbformat.cc).

/** Internal keys as bytes, and the keys an index may use in their place. */
module TableKeys {
  import opened Coding
  import opened Comparator

  /** A user key and its 64-bit tag: sequence number and type. */
  datatype TableKey = TableKey(user: Bytes, tag: nat)

  /** PackSequenceAndType(kMaxSequenceNumber, kValueTypeForSeek): no tag comes before it. */
  const MAX_TAG := 0xFFFF_FFFF_FFFF_FF01

  /** InternalKeyComparator::Compare(a, b) < 0. */
  predicate KeyLess(a: TableKey, b: TableKey) {
    Less(a.user, b.user) || (a.user == b.user && a.tag > b.tag)
  }

  lemma KeyOrder(a: TableKey, b: TableKey, c: TableKey)
    ensures !KeyLess(a, a) && (KeyLess(a, b) || KeyLess(b, a) || a == b) && !(KeyLess(a, b) && KeyLess(b, a))
    ensures KeyLess(a, b) && KeyLess(b, c) ==> KeyLess(a, c)
  {
    LessIsTotal(a.user, b.user, c.user);
    LessIsTotal(b.user, a.user, c.user);
    LessIsTotal(a.user, c.user, b.user);
  }

  /** What the index holds for a block: a key at or after its last one and before the next block; a
      user key of its own, or the last key itself. */
  ghost predicate IsSeparator(last: TableKey, separator: TableKey) {
    separator == last || Less(last.user, separator.user)
  }

  ghost predicate EndsBefore(separator: TableKey, last: TableKey, next: TableKey) {
    KeyLess(separator, next) && (separator == last || Less(separator.user, next.user))
  }

  /** InternalKeyComparator::FindShortestSeparator. */
  method FindSeparator(last: TableKey, next: TableKey) returns (separator: TableKey)
    requires KeyLess(last, next)
    ensures IsSeparator(last, separator) && EndsBefore(separator, last, next)
  {
    var tmp := FindShortestSeparator(last.user, next.user);
    separator := last;
    if |tmp| < |last.user| {
      assert tmp != last.user;
      separator := TableKey(tmp, MAX_TAG);
    }
  }

  /** InternalKeyComparator::FindShortSuccessor, for the last block. */
  method FindSuccessor(last: TableKey) returns (separator: TableKey)
    ensures IsSeparator(last, separator)
  {
    var tmp := FindShortSuccessor(last.user);
    separator := last;
    if |tmp| < |last.user| {
      assert tmp != last.user;
      separator := TableKey(tmp, MAX_TAG);
    }
  }
}
