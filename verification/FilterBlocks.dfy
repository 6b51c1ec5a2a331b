/** One filter for every 2 KB of a table file. */
module FilterBlocks {
  import opened DbFormat
  import opened Coding
  import opened BlockFormat

  const FILTER_BASE := 2048

  /** A filter policy: how filters are made and asked. */
  datatype Policy = Policy(create: seq<Bytes> -> Bytes, match_: (Bytes, Bytes) -> bool)

  /** A filter made from keys never denies one of them. */
  ghost predicate NoFalseNegatives(p: Policy) {
    forall keys: seq<Bytes>, key :: key in keys ==> p.match_(key, p.create(keys))
  }

  /** The filters one after the other, and where each one begins. */
  datatype Contents = Contents(data: Bytes, offsets: seq<nat>)

  function Limit(c: Contents, i: nat): nat {
    if i + 1 < |c.offsets| then c.offsets[i + 1] else |c.data|
  }

  ghost predicate Ascending(c: Contents) {
    forall i :: 0 <= i < |c.offsets| ==> c.offsets[i] <= Limit(c, i) <= |c.data|
  }

  /** FilterBlockReader::KeyMayMatch: what cannot be looked up counts as a match. */
  predicate KeyMayMatch(p: Policy, c: Contents, blockOffset: nat, key: Bytes) {
    var index := blockOffset / FILTER_BASE;
    if index < |c.offsets| then
      var start, limit := c.offsets[index], Limit(c, index);
      if start <= limit <= |c.data| then p.match_(key, c.data[start..limit]) else start != limit
    else true
  }

  const FILTER_BASE_LG: Byte := 11

  /** The finished block: the filters, where they begin, where that array begins, and the base. */
  function Encode(c: Contents): Bytes {
    c.data + FixedAll(c.offsets) + PutFixed(|c.data|, 4) + [FILTER_BASE_LG]
  }

  /** What FilterBlockReader keeps of the bytes: where the array of offsets is, how many there are, and
      the base; nothing if they make no sense. */
  function Open(b: Bytes): (r: Option<(nat, nat, Byte)>)
    ensures r.Some? ==> r.value.0 + 4 * r.value.1 + 5 <= |b|
  {
    if |b| < 5 then None
    else
      var lastWord := DecodeFixed(b[|b| - 5..|b| - 1]);
      if lastWord > |b| - 5 then None else Some((lastWord, (|b| - 5 - lastWord) / 4, b[|b| - 1]))
  }

  function OffsetAt(b: Bytes, at: nat, i: nat): nat
    requires at + 4 * i + 4 <= |b|
  {
    DecodeFixed(b[at + 4 * i..at + 4 * i + 4])
  }

  /** v >> n */
  function Shifted(v: nat, n: nat): nat {
    if n == 0 then v else Shifted(v / 2, n - 1)
  }

  /** FilterBlockReader::KeyMayMatch over the bytes. */
  predicate BytesMayMatch(p: Policy, b: Bytes, blockOffset: nat, key: Bytes) {
    match Open(b)
    case None => true
    case Some((at, count, lg)) =>
      var index := Shifted(blockOffset, lg);
      if index < count then
        var start, limit := OffsetAt(b, at, index), OffsetAt(b, at, index + 1);
        if start <= limit <= at then p.match_(key, b[start..limit]) else start != limit
      else true
  }

  lemma EncodedParts(c: Contents)
    ensures var b, at := Encode(c), |c.data|;
      && |b| == at + 4 * |c.offsets| + 5 && b[..at] == c.data && b[|b| - 1] == FILTER_BASE_LG
      && b[|b| - 5..|b| - 1] == PutFixed(at, 4)
      && forall i :: 0 <= i < |c.offsets| ==> b[at + 4 * i..at + 4 * i + 4] == FixedAll(c.offsets)[4 * i..4 * i + 4]
  {
  }

  lemma EncodedOffset(c: Contents, i: nat)
    requires i <= |c.offsets| && Ascending(c) && |c.data| < UINT32_LIMIT
    ensures |c.data| + 4 * i + 4 <= |Encode(c)|
    ensures OffsetAt(Encode(c), |c.data|, i) == if i < |c.offsets| then c.offsets[i] else |c.data|
  {
    EncodedParts(c);
    FixedWidths();
    if i < |c.offsets| {
      FixedAt(c.offsets, i);
      FixedRoundTrip(c.offsets[i], 4);
    } else {
      FixedRoundTrip(|c.data|, 4);
    }
  }

  /** Read back, the bytes answer as the filters do; an offset has to fit 32 bits. */
  lemma BytesReadBack(p: Policy, c: Contents, blockOffset: nat, key: Bytes)
    requires Ascending(c) && |c.data| < UINT32_LIMIT
    ensures BytesMayMatch(p, Encode(c), blockOffset, key) == KeyMayMatch(p, c, blockOffset, key)
  {
    EncodedOpens(c);
    BaseIs2Kb(blockOffset);
    var index := blockOffset / FILTER_BASE;
    if index < |c.offsets| {
      EncodedOffset(c, index);
      EncodedOffset(c, index + 1);
      EncodedFilter(c, c.offsets[index], Limit(c, index));
    }
  }

  lemma EncodedOpens(c: Contents)
    requires |c.data| < UINT32_LIMIT
    ensures Open(Encode(c)) == Some((|c.data|, |c.offsets|, FILTER_BASE_LG))
  {
    EncodedParts(c);
    FixedWidths();
    FixedRoundTrip(|c.data|, 4);
  }

  lemma EncodedFilter(c: Contents, start: nat, limit: nat)
    requires start <= limit <= |c.data|
    ensures limit <= |Encode(c)| && Encode(c)[start..limit] == c.data[start..limit]
  {
    EncodedParts(c);
    assert Encode(c)[..|c.data|][start..limit] == Encode(c)[start..limit];
  }

  lemma BaseIs2Kb(v: nat)
    ensures Shifted(v, FILTER_BASE_LG) == v / FILTER_BASE
  {
    assert Shifted(v, 11) == Shifted(v / 4, 9);
    assert Shifted(v / 4, 9) == Shifted(v / 16, 7);
    assert Shifted(v / 16, 7) == Shifted(v / 64, 5);
    assert Shifted(v / 64, 5) == Shifted(v / 256, 3);
    assert Shifted(v / 256, 3) == Shifted(v / 1024, 1);
  }

  /** Every key of a block whose filter exists matches there; the others wait to be put into the next. */
  ghost predicate Accounted(p: Policy, c: Contents, waiting: seq<Bytes>, added: set<(nat, Bytes)>) {
    forall x :: x in added ==>
      if x.0 / FILTER_BASE < |c.offsets| then KeyMayMatch(p, c, x.0, x.1)
                                              else x.0 / FILTER_BASE == |c.offsets| && x.1 in waiting
  }

  function Generated(p: Policy, c: Contents, keys: seq<Bytes>): Contents {
    Contents(if keys == [] then c.data else c.data + p.create(keys), c.offsets + [|c.data|])
  }

  lemma GeneratedAccounts(p: Policy, c: Contents, keys: seq<Bytes>, added: set<(nat, Bytes)>)
    requires NoFalseNegatives(p) && Ascending(c) && Accounted(p, c, keys, added)
    ensures Ascending(Generated(p, c, keys)) && Accounted(p, Generated(p, c, keys), [], added)
  {
    var c', n := Generated(p, c, keys), |c.offsets|;
    assert forall i :: 0 <= i < n ==> Limit(c', i) == Limit(c, i) && c'.offsets[i] == c.offsets[i];
    assert Limit(c', n) == |c'.data| && c'.offsets[n] == |c.data|;
    forall x | x in added ensures x.0 / FILTER_BASE <= n && KeyMayMatch(p, c', x.0, x.1) {
      var index := x.0 / FILTER_BASE;
      if index < n {
        assert c'.data[c.offsets[index]..Limit(c, index)] == c.data[c.offsets[index]..Limit(c, index)];
      } else {
        assert c'.data[|c.data|..|c'.data|] == p.create(keys);
      }
    }
  }

  class FilterBlockBuilder {
    const policy: Policy
    var keys: seq<Bytes>
    var contents: Contents
    /** The offset of the block being filled, and all keys so far with their blocks' offsets. */
    ghost var block: nat
    ghost var added: set<(nat, Bytes)>

    ghost predicate Valid() reads this {
      && NoFalseNegatives(policy) && Ascending(contents) && block / FILTER_BASE == |contents.offsets|
      && Accounted(policy, contents, keys, added) && forall x :: x in added ==> x.0 <= block
    }

    constructor (policy: Policy)
      requires NoFalseNegatives(policy)
      ensures Valid() && added == {} && block == 0 && this.policy == policy
    {
      this.policy := policy;
      keys, contents, block, added := [], Contents([], []), 0, {};
    }

    method GenerateFilter()
      requires NoFalseNegatives(policy) && Ascending(contents) && Accounted(policy, contents, keys, added)
      modifies this`keys, this`contents
      ensures contents == Generated(policy, old(contents), old(keys)) && keys == []
      ensures Ascending(contents) && Accounted(policy, contents, keys, added)
    {
      GeneratedAccounts(policy, contents, keys, added);
      contents := Generated(policy, contents, keys);
      keys := [];
    }

    /** Blocks follow one another in the file. */
    method StartBlock(blockOffset: nat)
      requires Valid() && block <= blockOffset
      modifies this
      ensures Valid() && block == blockOffset && added == old(added)
    {
      var filterIndex := blockOffset / FILTER_BASE;
      while filterIndex > |contents.offsets|
        invariant NoFalseNegatives(policy) && Ascending(contents) && Accounted(policy, contents, keys, added)
        invariant |contents.offsets| <= filterIndex && added == old(added) && block == old(block)
      {
        GenerateFilter();
      }
      block := blockOffset;
    }

    method AddKey(key: Bytes)
      requires Valid()
      modifies this
      ensures Valid() && block == old(block) && added == old(added) + {(block, key)}
    {
      keys := keys + [key];
      added := added + {(block, key)};
    }

    /** Every key matches in the filter of its own block, also when the finished bytes are read, if these
        are small enough for offsets of 32 bits. */
    method Finish() returns (result: Bytes, c: Contents)
      requires Valid()
      modifies this
      ensures result == Encode(c)
      ensures forall x :: x in old(added) ==> KeyMayMatch(policy, c, x.0, x.1)
      ensures |c.data| < UINT32_LIMIT ==> forall x :: x in old(added) ==> BytesMayMatch(policy, result, x.0, x.1)
    {
      if keys != [] {
        GenerateFilter();
      }
      c := contents;
      result := c.data + FixedAll(c.offsets) + PutFixed(|c.data|, 4) + [FILTER_BASE_LG];
      if |c.data| < UINT32_LIMIT {
        forall x | x in old(added) ensures BytesMayMatch(policy, result, x.0, x.1) {
          BytesReadBack(policy, c, x.0, x.1);
        }
      }
    }
  }
}
