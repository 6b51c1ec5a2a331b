// The byte form of a write batch (db/write_batch.cc, db/write_batch_internal.h).

module WriteBatches {
  import opened DbFormat
  import opened Coding

  datatype Op = Put(key: Bytes, value: Bytes) | Delete(key: Bytes)

  const HEADER_SIZE := 12

  /** The lengths of key and value are written as 32-bit varints. */
  predicate SmallOp(op: Op) {
    |op.key| < UINT32_LIMIT && (op.Put? ==> |op.value| < UINT32_LIMIT)
  }

  function EncodeOp(op: Op): Bytes {
    match op
    case Put(key, value) => [1] + (PutLengthPrefixedSlice(key) + PutLengthPrefixedSlice(value))
    case Delete(key) => [0] + PutLengthPrefixedSlice(key)
  }

  function EncodeOps(ops: seq<Op>): Bytes {
    if ops == [] then [] else EncodeOp(ops[0]) + EncodeOps(ops[1..])
  }

  /** The contents of a batch: sequence number, count, operations. */
  function Rep(sequence: nat, ops: seq<Op>): Bytes {
    PutFixed(sequence, 8) + PutFixed(|ops|, 4) + EncodeOps(ops)
  }

  lemma {:induction false} EncodeOpsAppend(a: seq<Op>, b: seq<Op>)
    ensures EncodeOps(a + b) == EncodeOps(a) + EncodeOps(b)
  {
    if a == [] {
      assert a + b == b;
    } else {
      assert (a + b)[1..] == a[1..] + b;
      EncodeOpsAppend(a[1..], b);
    }
  }

  lemma ThreeParts(a: Bytes, b: Bytes, c: Bytes)
    ensures (a + b + c)[..|a|] == a && (a + b + c)[|a|..|a| + |b|] == b && (a + b + c)[|a| + |b|..] == c
    ensures (a + b + c)[|a|..] == b + c
  {
  }

  lemma RepParts(sequence: nat, ops: seq<Op>)
    ensures |Rep(sequence, ops)| >= HEADER_SIZE
    ensures Rep(sequence, ops)[..8] == PutFixed(sequence, 8) && Rep(sequence, ops)[8..12] == PutFixed(|ops|, 4)
    ensures Rep(sequence, ops)[12..] == EncodeOps(ops) && Rep(sequence, ops)[8..] == PutFixed(|ops|, 4) + EncodeOps(ops)
  {
    ThreeParts(PutFixed(sequence, 8), PutFixed(|ops|, 4), EncodeOps(ops));
  }

  lemma Spliced(a: Bytes, b: Bytes, c: Bytes, d: Bytes, e: Bytes)
    ensures (a + b + c)[..|a|] + d + (a + b + c)[|a| + |b|..] + e == a + d + (c + e)
  {
    ThreeParts(a, b, c);
  }

  /** What the header update and the appended bytes of Put, Delete and Append come to. */
  lemma Extended(sequence: nat, ops: seq<Op>, more: seq<Op>)
    ensures |Rep(sequence, ops)| >= HEADER_SIZE
    ensures Rep(sequence, ops)[..8] + PutFixed(|ops| + |more|, 4) + Rep(sequence, ops)[12..] + EncodeOps(more)
      == Rep(sequence, ops + more)
  {
    EncodeOpsAppend(ops, more);
    assert |ops + more| == |ops| + |more|;
    Spliced(PutFixed(sequence, 8), PutFixed(|ops|, 4), EncodeOps(ops), PutFixed(|ops + more|, 4), EncodeOps(more));
  }

  lemma Appended(rep: Bytes, srcRep: Bytes, sequence: nat, ops: seq<Op>, srcSequence: nat, srcOps: seq<Op>)
    requires rep == Rep(sequence, ops) && srcRep == Rep(srcSequence, srcOps)
    ensures |rep| >= HEADER_SIZE && |srcRep| >= HEADER_SIZE
    ensures rep[..8] + PutFixed(|ops| + |srcOps|, 4) + rep[12..] + srcRep[HEADER_SIZE..] == Rep(sequence, ops + srcOps)
  {
    RepParts(srcSequence, srcOps);
    Extended(sequence, ops, srcOps);
  }

  /** One operation at the front of the input. */
  function ParseOp(input: Bytes): (r: Option<(Op, Bytes)>)
    ensures r.Some? ==> |r.value.1| < |input|
  {
    if input == [] then None
    else if input[0] == 1 then
      match GetLengthPrefixedSlice(input[1..])
      case None => None
      case Some(k) =>
        (match GetLengthPrefixedSlice(k.1)
         case None => None
         case Some(v) => Some((Put(k.0, v.0), v.1)))
    else if input[0] == 0 then
      match GetLengthPrefixedSlice(input[1..])
      case None => None
      case Some(k) => Some((Delete(k.0), k.1))
    else None
  }

  lemma FrontOfOp(tag: Byte, body: Bytes, rest: Bytes)
    ensures [tag] + body + rest != [] && ([tag] + body + rest)[0] == tag && ([tag] + body + rest)[1..] == body + rest
  {
  }

  lemma OpRoundTrip(op: Op, rest: Bytes)
    requires SmallOp(op)
    ensures ParseOp(EncodeOp(op) + rest) == Some((op, rest))
  {
    var k := PutLengthPrefixedSlice(op.key);
    match op
    case Put(key, value) =>
      var v := PutLengthPrefixedSlice(value);
      SliceRoundTrip(key, v + rest);
      SliceRoundTrip(value, rest);
      FrontOfOp(1, k + v, rest);
      Associates(k, v, rest);
    case Delete(key) =>
      SliceRoundTrip(key, rest);
      FrontOfOp(0, k, rest);
  }

  /** The operations up to the first malformed one, and whether there is none. */
  function ParseOps(input: Bytes): (seq<Op>, bool)
    decreases |input|
  {
    if input == [] then ([], true)
    else
      match ParseOp(input)
      case None => ([], false)
      case Some(p) => ([p.0] + ParseOps(p.1).0, ParseOps(p.1).1)
  }

  lemma {:induction false} OpsRoundTrip(ops: seq<Op>)
    requires forall op :: op in ops ==> SmallOp(op)
    ensures ParseOps(EncodeOps(ops)) == (ops, true)
  {
    if ops != [] {
      OpRoundTrip(ops[0], EncodeOps(ops[1..]));
      OpsRoundTrip(ops[1..]);
      assert EncodeOps(ops) != [];
      assert [ops[0]] + ops[1..] == ops;
    }
  }

  /** MemTableInserter: the operations in order, each with the next sequence number. */
  function Numbered(sequence: nat, ops: seq<Op>): seq<(nat, Op)> {
    seq(|ops|, i requires 0 <= i < |ops| => (sequence + i, ops[i]))
  }

  lemma NumberedOne(sequence: nat, ops: seq<Op>, op: Op)
    ensures Numbered(sequence, ops + [op]) == Numbered(sequence, ops) + [(sequence + |ops|, op)]
  {
  }

  lemma JoinedOps(handled: seq<Op>, op: Op, ops: seq<Op>)
    ensures handled + ([op] + ops) == (handled + [op]) + ops
  {
  }

  lemma ParsedOne(handled: seq<Op>, input: Bytes)
    requires input != []
    ensures match ParseOp(input)
            case None => (handled + ParseOps(input).0, ParseOps(input).1) == (handled, false)
            case Some(p) => (handled + ParseOps(input).0, ParseOps(input).1)
                            == ((handled + [p.0]) + ParseOps(p.1).0, ParseOps(p.1).1)
  {
    match ParseOp(input)
    case None =>
      assert handled + [] == handled;
    case Some(p) =>
      JoinedOps(handled, p.0, ParseOps(p.1).0);
  }

  datatype Status = Ok | Corruption(message: string)

  /** WriteBatch::Iterate with the memtable inserter: what reaches the memtable, and the status. */
  method InsertInto(rep: Bytes) returns (inserted: seq<(nat, Op)>, status: Status)
    ensures |rep| < HEADER_SIZE ==> inserted == [] && status.Corruption?
    ensures |rep| >= HEADER_SIZE ==>
      var parsed := ParseOps(rep[12..]);
      && inserted == Numbered(DecodeFixed(rep[..8]), parsed.0)
      && (status == Ok <==> parsed.1 && |parsed.0| == DecodeFixed(rep[8..12]))
  {
    if |rep| < HEADER_SIZE {
      return [], Corruption("malformed WriteBatch (too small)");
    }
    inserted, status := Iterate(rep[HEADER_SIZE..], DecodeFixed(rep[..8]), DecodeFixed(rep[8..12]));
  }

  /** What the loop over the operations has read, and what is left. */
  ghost predicate SoFar(rep: Bytes, first: nat, handled: seq<Op>, input: Bytes, inserted: seq<(nat, Op)>) {
    inserted == Numbered(first, handled) && ParseOps(rep) == (handled + ParseOps(input).0, ParseOps(input).1)
  }

  lemma NothingYet(rep: Bytes, first: nat)
    ensures SoFar(rep, first, [], rep, [])
  {
    assert [] + ParseOps(rep).0 == ParseOps(rep).0;
  }

  lemma OneMore(rep: Bytes, first: nat, handled: seq<Op>, input: Bytes, inserted: seq<(nat, Op)>, op: Op, rest: Bytes)
    requires SoFar(rep, first, handled, input, inserted) && ParseOp(input) == Some((op, rest))
    ensures SoFar(rep, first, handled + [op], rest, inserted + [(first + |handled|, op)])
  {
    ParsedOne(handled, input);
    NumberedOne(first, handled, op);
  }

  lemma Stopped(rep: Bytes, first: nat, handled: seq<Op>, input: Bytes, inserted: seq<(nat, Op)>)
    requires SoFar(rep, first, handled, input, inserted) && ParseOp(input) == None
    ensures inserted == Numbered(first, ParseOps(rep).0) && (ParseOps(rep).1 <==> input == [])
    ensures |handled| == |ParseOps(rep).0|
  {
    assert handled + [] == handled;
  }

  method Iterate(rep: Bytes, first: nat, count: nat) returns (inserted: seq<(nat, Op)>, status: Status)
    ensures inserted == Numbered(first, ParseOps(rep).0)
    ensures status == Ok <==> ParseOps(rep).1 && |ParseOps(rep).0| == count
  {
    inserted := [];
    var input, sequence, found := rep, first, 0;
    ghost var handled: seq<Op> := [];
    NothingYet(rep, first);
    while input != []
      invariant found == |handled| && sequence == first + found
      invariant SoFar(rep, first, handled, input, inserted)
      decreases |input|
    {
      var parsed := ParseOp(input);
      if parsed == None {
        Stopped(rep, first, handled, input, inserted);
        return inserted, Corruption("bad or unknown operation");
      }
      OneMore(rep, first, handled, input, inserted, parsed.value.0, parsed.value.1);
      inserted := inserted + [(sequence, parsed.value.0)];
      handled := handled + [parsed.value.0];
      found, sequence, input := found + 1, sequence + 1, parsed.value.1;
    }
    Stopped(rep, first, handled, input, inserted);
    status := if found == count then Ok else Corruption("WriteBatch has wrong count");
  }

  class WriteBatch {
    var rep: Bytes

    constructor ()
      ensures rep == Rep(0, [])
    {
      rep := PutFixed(0, 12);
      new;
      assert PutFixed(0, 8) + PutFixed(0, 4) == PutFixed(0, 12);
    }

    method Count(ghost sequence: nat, ghost ops: seq<Op>) returns (n: nat)
      requires rep == Rep(sequence, ops) && |ops| < UINT32_LIMIT
      ensures n == |ops|
    {
      RepParts(sequence, ops);
      FixedWidths();
      FixedRoundTrip(|ops|, 4);
      n := DecodeFixed(rep[8..12]);
    }

    method SetCount(n: nat)
      requires |rep| >= HEADER_SIZE
      modifies this
      ensures rep == old(rep)[..8] + PutFixed(n, 4) + old(rep)[12..]
    {
      rep := rep[..8] + PutFixed(n, 4) + rep[12..];
    }

    method SetSequence(n: nat, ghost sequence: nat, ghost ops: seq<Op>)
      requires rep == Rep(sequence, ops)
      modifies this
      ensures rep == Rep(n, ops)
    {
      RepParts(sequence, ops);
      rep := PutFixed(n, 8) + rep[8..];
      Associates(PutFixed(n, 8), PutFixed(|ops|, 4), EncodeOps(ops));
    }

    /** Put and Delete: one more operation, and the count kept up to date. */
    method Add(op: Op, ghost sequence: nat, ghost ops: seq<Op>)
      requires rep == Rep(sequence, ops) && |ops| + 1 < UINT32_LIMIT
      modifies this
      ensures rep == Rep(sequence, ops + [op])
    {
      Extended(sequence, ops, [op]);
      var count := Count(sequence, ops);
      SetCount(count + 1);
      assert EncodeOps([op]) == EncodeOp(op);
      match op {
        case Put(key, value) => rep := rep + ([1] + (PutLengthPrefixedSlice(key) + PutLengthPrefixedSlice(value)));
        case Delete(key) => rep := rep + ([0] + PutLengthPrefixedSlice(key));
      }
    }

    method Extend(count: nat, tail: Bytes)
      requires |rep| >= HEADER_SIZE
      modifies this
      ensures rep == old(rep)[..8] + PutFixed(count, 4) + old(rep)[12..] + tail
    {
      SetCount(count);
      rep := rep + tail;
    }

    /** WriteBatchInternal::Append. */
    method Append(src: WriteBatch, ghost sequence: nat, ghost ops: seq<Op>, ghost srcSequence: nat,
                  ghost srcOps: seq<Op>)
      requires src != this && rep == Rep(sequence, ops) && src.rep == Rep(srcSequence, srcOps)
        && |ops| + |srcOps| < UINT32_LIMIT
      modifies this
      ensures rep == Rep(sequence, ops + srcOps)
    {
      var count := Count(sequence, ops);
      var more := src.Count(srcSequence, srcOps);
      Appended(rep, src.rep, sequence, ops, srcSequence, srcOps);
      Extend(count + more, src.rep[HEADER_SIZE..]);
    }
  }

  /** What a batch was filled with is what reaches the memtable, numbered from its sequence number. */
  lemma BatchRoundTrip(sequence: nat, ops: seq<Op>)
    requires sequence < UINT64_LIMIT && |ops| < UINT32_LIMIT && forall op :: op in ops ==> SmallOp(op)
    ensures var rep := Rep(sequence, ops);
            && |rep| >= HEADER_SIZE && ParseOps(rep[12..]) == (ops, true)
            && DecodeFixed(rep[..8]) == sequence && DecodeFixed(rep[8..12]) == |ops|
  {
    RepParts(sequence, ops);
    FixedWidths();
    FixedRoundTrip(sequence, 8);
    FixedRoundTrip(|ops|, 4);
    OpsRoundTrip(ops);
  }

  /** DBImpl::Write: the batch gets its sequence number and goes into the memtable. */
  method Commit(batch: WriteBatch, first: nat, ghost sequence: nat, ghost ops: seq<Op>)
    returns (inserted: seq<(nat, Op)>, status: Status)
    requires batch.rep == Rep(sequence, ops) && first < UINT64_LIMIT && |ops| < UINT32_LIMIT
    requires forall op :: op in ops ==> SmallOp(op)
    modifies batch
    ensures batch.rep == Rep(first, ops) && inserted == Numbered(first, ops) && status == Ok
  {
    batch.SetSequence(first, sequence, ops);
    inserted, status := InsertInto(batch.rep);
    BatchRoundTrip(first, ops);
  }
}
