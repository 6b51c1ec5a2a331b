module LogWriters {
  import opened Coding
  import opened LogFormat

  lemma OffsetMoves(offset: nat, length: nat, n: nat)
    requires offset % BLOCK_SIZE == length % BLOCK_SIZE
    ensures (offset + n) % BLOCK_SIZE == (length + n) % BLOCK_SIZE
  {
  }

  lemma OffsetFacts(offset: nat, length: nat, left: nat)
    requires offset <= BLOCK_SIZE && offset % BLOCK_SIZE == length % BLOCK_SIZE
    ensures var leftover := BLOCK_SIZE - offset;
            if leftover < HEADER_SIZE then
              && PadLength(length) == leftover && (length + leftover) % BLOCK_SIZE == 0
              && FragmentLength(length, left) == if left < BLOCK_SIZE - HEADER_SIZE
                then left else BLOCK_SIZE - HEADER_SIZE
            else
              PadLength(length) == 0 && FragmentLength(length, left) == if left < leftover - HEADER_SIZE
                then left else leftover - HEADER_SIZE
  {
  }

  /** One turn of the loop, and the rest. */
  lemma EncodeStep(crc: Crc, file: Bytes, data: Bytes, begin: bool)
    ensures var n := FragmentLength(|file|, |data|);
            var after := file + Zeros(PadLength(|file|)) + PhysicalRecord(crc, KindOf(begin, n == |data|), data[..n]);
            after + Rest(crc, |after|, data[n..]) == file + Encode(crc, |file|, data, begin)
  {
    var n := FragmentLength(|file|, |data|);
    var pad, r := Zeros(PadLength(|file|)), PhysicalRecord(crc, KindOf(begin, n == |data|), data[..n]);
    Regroup(file, pad, r, Rest(crc, |file| + |pad + r|, data[n..]));
    FirstTurn(crc, |file|, data, begin);
  }

  lemma FirstTurn(crc: Crc, pos: nat, data: Bytes, begin: bool)
    ensures var n := FragmentLength(pos, |data|);
            var bytes := Zeros(PadLength(pos)) + PhysicalRecord(crc, KindOf(begin, n == |data|), data[..n]);
            Encode(crc, pos, data, begin) == bytes + Rest(crc, pos + |bytes|, data[n..])
  {
    var n := FragmentLength(pos, |data|);
    var bytes := Zeros(PadLength(pos)) + PhysicalRecord(crc, KindOf(begin, n == |data|), data[..n]);
    assert bytes + [] == bytes;
  }

  lemma Regroup(a: Bytes, b: Bytes, c: Bytes, d: Bytes)
    ensures a + b + c + d == a + (b + c + d) && |a + b + c| == |a| + |b + c|
    ensures d == [] ==> b + c + d == b + c
  {
  }

  class Writer {
    const crc: Crc
    /** What has been appended to dest_. */
    var file: Bytes
    var blockOffset: nat

    predicate Valid() reads this {
      blockOffset <= BLOCK_SIZE && blockOffset % BLOCK_SIZE == |file| % BLOCK_SIZE
    }

    /** A writer at the end of a file, empty or not. */
    constructor (crc: Crc, file: Bytes)
      ensures Valid() && this.file == file && this.crc == crc
    {
      this.crc, this.file := crc, file;
      blockOffset := |file| % BLOCK_SIZE;
    }

    method EmitPhysicalRecord(kind: Byte, payload: Bytes)
      requires Valid() && blockOffset + HEADER_SIZE + |payload| <= BLOCK_SIZE
      modifies this
      ensures Valid() && file == old(file) + PhysicalRecord(crc, kind, payload)
    {
      OffsetMoves(blockOffset, |file|, HEADER_SIZE + |payload|);
      file := file + PhysicalRecord(crc, kind, payload);
      blockOffset := blockOffset + HEADER_SIZE + |payload|;
    }

    /** The loop runs at least once, so that an empty record is written too. */
    method AddRecord(record: Bytes)
      requires Valid()
      modifies this
      ensures Valid() && file == old(file) + Encode(crc, |old(file)|, record, true)
    {
      ghost var target := file + Encode(crc, |file|, record, true);
      var left := AddFragment(record, true);
      while left != []
        invariant Valid() && file + Rest(crc, |file|, left) == target
        invariant left != [] ==> FragmentLength(|file|, |left|) > 0
        decreases |left|
      {
        left := AddFragment(left, false);
      }
    }

    /** One turn of the loop: fill the trailer, then emit as much as fits. */
    method AddFragment(data: Bytes, begin: bool) returns (left: Bytes)
      requires Valid()
      modifies this
      ensures Valid() && left == data[FragmentLength(|old(file)|, |data|)..]
      ensures left != [] ==> FragmentLength(|file|, |left|) > 0
      ensures file + Rest(crc, |file|, left) == old(file) + Encode(crc, |old(file)|, data, begin)
    {
      ghost var was := file;
      OffsetFacts(blockOffset, |file|, |data|);
      var leftover := BLOCK_SIZE - blockOffset;
      if leftover < HEADER_SIZE {
        file := file + Zeros(leftover);
        blockOffset := 0;
      } else {
        assert file == was + Zeros(0);
      }
      assert file == was + Zeros(PadLength(|was|));
      var avail := BLOCK_SIZE - blockOffset - HEADER_SIZE;
      var n := if |data| < avail then |data| else avail;
      assert n == FragmentLength(|was|, |data|);
      EmitPhysicalRecord(KindOf(begin, n == |data|), data[..n]);
      left := data[n..];
      EncodeStep(crc, was, data, begin);
      if n < |data| {
        NextBlockHasRoom(|was|, |data|);
      }
    }
  }

  /** What the loop still has to append. */
  function Rest(crc: Crc, pos: nat, left: Bytes): Bytes {
    if left == [] then [] else Encode(crc, pos, left, false)
  }

  lemma AppendedRecord(crc: Crc, records: seq<Bytes>, record: Bytes)
    ensures FileOf(crc, records + [record]) == FileOf(crc, records) + Encode(crc, |FileOf(crc, records)|, record, true)
  {
    assert (records + [record])[..|records|] == records;
  }

  lemma SessionNext(crc: Crc, before: seq<Bytes>, records: seq<Bytes>, i: nat)
    requires i < |records|
    ensures var file := FileOf(crc, before + records[..i]);
            FileOf(crc, before + records[..i + 1]) == file + Encode(crc, |file|, records[i], true)
  {
    AppendedRecord(crc, before + records[..i], records[i]);
    assert before + records[..i] + [records[i]] == before + records[..i + 1];
  }

  /** A writer is opened at the end of a file, empty or not, writes these records and is closed. */
  method WriteSession(crc: Crc, file: Bytes, records: seq<Bytes>, ghost before: seq<Bytes>) returns (after: Bytes)
    requires file == FileOf(crc, before)
    ensures after == FileOf(crc, before + records)
  {
    var writer := new Writer(crc, file);
    assert before + [] == before;
    for i := 0 to |records|
      invariant writer.Valid() && writer.crc == crc && fresh(writer)
        && writer.file == FileOf(crc, before + records[..i])
    {
      SessionNext(crc, before, records, i);
      writer.AddRecord(records[i]);
    }
    assert records[..|records|] == records;
    after := writer.file;
  }

  /** The records of all sessions, one session after the other. */
  function AllRecords(sessions: seq<seq<Bytes>>): seq<Bytes> {
    if sessions == [] then [] else AllRecords(sessions[..|sessions| - 1]) + sessions[|sessions| - 1]
  }

  /** Reopening makes no difference: the file is that of one writer for all the records. */
  method WriteSessions(crc: Crc, sessions: seq<seq<Bytes>>) returns (file: Bytes)
    ensures file == FileOf(crc, AllRecords(sessions))
  {
    file := [];
    for i := 0 to |sessions|
      invariant file == FileOf(crc, AllRecords(sessions[..i]))
    {
      assert sessions[..i + 1][..i] == sessions[..i];
      file := WriteSession(crc, file, sessions[i], AllRecords(sessions[..i]));
    }
    assert sessions[..|sessions|] == sessions;
  }
}
