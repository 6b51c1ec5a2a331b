module LogReaders {
  import opened DbFormat
  import opened Coding
  import opened LogFormat
  import opened LogWriters
  import opened LogParsing
  import opened LogRoundTrip

  datatype Result = EndOfFile | BadRecord | Piece(kind: Byte, payload: Bytes)

  /** A reader from the start of a file, checking checksums. drops: what the reporter was told. */
  class Reader {
    const crc: Crc
    const file: Bytes
    var buffer: Bytes
    var eof: bool
    var endOfBuffer: nat
    var lastRecordOffset: nat
    var drops: seq<nat>

    ghost predicate Valid() reads this {
      && |buffer| <= endOfBuffer <= |file| && buffer == file[endOfBuffer - |buffer|..endOfBuffer]
      && (eof ==> endOfBuffer == |file| < BlockEnd(Position()))
      && (!eof ==> endOfBuffer % BLOCK_SIZE == 0 && (buffer == [] || endOfBuffer == BlockEnd(Position())))
    }

    ghost function Position(): nat
      reads this
      requires |buffer| <= endOfBuffer
    {
      endOfBuffer - |buffer|
    }

    constructor (crc: Crc, file: Bytes)
      ensures Valid() && Position() == 0 && drops == [] && this.crc == crc && this.file == file
    {
      this.crc, this.file := crc, file;
      buffer, eof, endOfBuffer, lastRecordOffset, drops := [], false, 0, 0, [];
    }

    method ReportCorruption(bytes: nat)
      modifies this`drops
      ensures drops == old(drops) + [bytes]
    {
      drops := drops + [bytes];
    }

    /** file_->Read: the next block, or less at the end of the file. */
    method FillBuffer()
      requires Valid() && |buffer| < HEADER_SIZE && !eof
      modifies this`buffer, this`eof, this`endOfBuffer
      ensures Valid() && NextPhysical(crc, file, Position()) == NextPhysical(crc, file, old(Position()))
      ensures !eof ==> |buffer| == BLOCK_SIZE
      ensures eof || old(endOfBuffer) < endOfBuffer
    {
      ghost var pos := Position();
      var available := |file| - endOfBuffer;
      var n := if available < BLOCK_SIZE then available else BLOCK_SIZE;
      buffer := file[endOfBuffer..endOfBuffer + n];
      endOfBuffer := endOfBuffer + n;
      if |buffer| < BLOCK_SIZE {
        eof := true;
      }
    }

    /** One physical record, as NextPhysical finds it. */
    method ReadPhysicalRecord() returns (r: Result)
      requires Valid()
      modifies this`buffer, this`eof, this`endOfBuffer, this`drops
      ensures Valid()
      ensures match NextPhysical(crc, file, old(Position()))
              case Eof => r == EndOfFile && drops == old(drops)
              case Bad(next, dropped) => r == BadRecord && Position() == next
                                         && drops == Drop(old(drops), dropped > 0, dropped)
              case Fragment(kind, payload, next) => r == Piece(kind, payload) && Position() == next
                                                    && drops == old(drops)
    {
      ghost var pos := Position();
      while |buffer| < HEADER_SIZE
        invariant Valid() && drops == old(drops) && NextPhysical(crc, file, Position()) == NextPhysical(crc, file, pos)
        decreases !eof, |file| - endOfBuffer
      {
        if eof {
          buffer := [];
          return EndOfFile;
        }
        FillBuffer();
      }
      r := ParseHeader();
    }

    method DropBuffer(report: bool)
      requires Valid()
      modifies this`buffer, this`drops
      ensures Valid() && Position() == endOfBuffer && drops == Drop(old(drops), report, old(|buffer|))
    {
      var dropSize := |buffer|;
      buffer := [];
      if report {
        ReportCorruption(dropSize);
      }
    }

    method ParseHeader() returns (r: Result)
      requires Valid() && |buffer| >= HEADER_SIZE
      modifies this`buffer, this`drops
      ensures Valid()
      ensures match ParseFragment(crc, file, old(Position()))
              case Eof => r == EndOfFile && drops == old(drops)
              case Bad(next, dropped) => r == BadRecord && Position() == next
                                         && drops == Drop(old(drops), dropped > 0, dropped)
              case Fragment(kind, payload, next) => r == Piece(kind, payload) && Position() == next
                                                    && drops == old(drops)
    {
      ParsedFromBuffer(crc, file, Position(), buffer);
      var length, kind := buffer[4] as int + 256 * buffer[5] as int, buffer[6];
      if HEADER_SIZE + length > |buffer| {
        DropBuffer(!eof);
        return if eof then EndOfFile else BadRecord;
      }
      if kind == ZERO_TYPE && length == 0 {
        DropBuffer(false);
        return BadRecord;
      }
      if Unmask(DecodeFixed(buffer[..4]) % UINT32_LIMIT) != crc(buffer[6..HEADER_SIZE + length]) {
        DropBuffer(true);
        return BadRecord;
      }
      r := Piece(kind, buffer[HEADER_SIZE..HEADER_SIZE + length]);
      RemovePrefix(HEADER_SIZE + length);
    }

    method RemovePrefix(n: nat)
      requires Valid() && n <= |buffer|
      modifies this`buffer
      ensures Valid() && Position() == old(Position()) + n
    {
      StillInBlock(Position(), Position() + n, endOfBuffer, |file|);
      buffer := buffer[n..];
    }

    /** One turn of ReadRecord's loop: the record is complete, or the file has ended, or the loop
        goes on with what has been gathered. */
    method TakePhysicalRecord(partial: Partial) returns (done: bool, record: Option<Bytes>, partial': Partial)
      requires Valid()
      modifies this
      ensures Valid() && (!done ==> old(Position()) < Position())
      ensures done ==> Returned(old(LogicalFrom(partial)), record)
      ensures !done ==> LogicalFrom(partial') == old(LogicalFrom(partial))
    {
      ghost var pos, before, outcome := Position(), drops, LogicalFrom(partial);
      partial' := partial;
      var r := ReadPhysicalRecord();
      match r {
        case EndOfFile =>
          assert outcome == NoRecord(drops);
          return true, None, partial;
        case BadRecord =>
          if partial.inFragment {
            ReportCorruption(|partial.scratch|);
          }
          partial' := Partial(false, if partial.inFragment then [] else partial.scratch, partial.start);
          assert outcome == NextLogical(crc, file, Position(), partial', drops);
          return false, None, partial';
        case Piece(kind, payload) =>
          assert outcome == AfterFragment(crc, file, kind, payload, Position(), partial, drops);
          done, record, partial' := TakeFragment(kind, payload, partial);
      }
    }

    method TakeFragment(kind: Byte, payload: Bytes, partial: Partial)
      returns (done: bool, record: Option<Bytes>, partial': Partial)
      requires Valid() && HEADER_SIZE + |payload| <= Position() <= |file|
      modifies this`drops, this`lastRecordOffset
      ensures Valid()
      ensures match old(Gather(kind, payload, Position(), partial, drops))
              case Done(data, start, d) => done && record == Some(data) && lastRecordOffset == start && drops == d
              case More(p, d) => !done && partial' == p && drops == d
              case Ended(d) => done && record == None && drops == d
    {
      var offset := endOfBuffer - |buffer| - HEADER_SIZE - |payload|;
      if kind == FULL_TYPE {
        if partial.inFragment && partial.scratch != [] {
          ReportCorruption(|partial.scratch|);
        }
        lastRecordOffset := offset;
        return true, Some(payload), partial;
      } else if kind == FIRST_TYPE {
        if partial.inFragment && partial.scratch != [] {
          ReportCorruption(|partial.scratch|);
        }
        return false, None, Partial(true, payload, offset);
      } else if kind == MIDDLE_TYPE {
        if partial.inFragment {
          return false, None, Partial(true, partial.scratch + payload, partial.start);
        }
        ReportCorruption(|payload|);
        return false, None, partial;
      } else if kind == LAST_TYPE {
        if partial.inFragment {
          lastRecordOffset := partial.start;
          return true, Some(partial.scratch + payload), partial;
        }
        ReportCorruption(|payload|);
        return false, None, partial;
      } else if kind == EOF_CODE {
        return true, None, partial;
      } else if kind == BAD_RECORD_CODE {
        if partial.inFragment {
          ReportCorruption(|partial.scratch|);
        }
        return false, None, Partial(false, if partial.inFragment then [] else partial.scratch, partial.start);
      } else {
        ReportCorruption(|payload| + if partial.inFragment then |partial.scratch| else 0);
        return false, None, Partial(false, [], partial.start);
      }
    }

    /** What reading on from here, with this much gathered, comes to. */
    ghost function LogicalFrom(partial: Partial): Logical
      reads this
      requires Valid()
    {
      NextLogical(crc, file, Position(), partial, drops)
    }

    /** The reader stands where this outcome leaves it. */
    ghost predicate Returned(outcome: Logical, record: Option<Bytes>)
      reads this
      requires Valid()
    {
      match outcome
      case NoRecord(d) => record == None && drops == d
      case Record(data, offset, next, d) => record == Some(data) && Position() == next && lastRecordOffset == offset
                                            && drops == d
    }

    method ReadRecord() returns (record: Option<Bytes>)
      requires Valid()
      modifies this
      ensures Valid() && Returned(old(NextLogical(crc, file, Position(), NOTHING_YET, drops)), record)
    {
      var partial, done := NOTHING_YET, false;
      record := None;
      while !done
        invariant Valid()
        invariant if done then Returned(old(NextLogical(crc, file, Position(), NOTHING_YET, drops)), record)
                  else LogicalFrom(partial) == old(NextLogical(crc, file, Position(), NOTHING_YET, drops))
        decreases !done, |file| - Position()
      {
        done, record, partial := TakePhysicalRecord(partial);
      }
    }
  }

  lemma StillInBlock(pos: nat, next: nat, end: nat, size: nat)
    requires pos <= next <= end <= BlockEnd(pos)
    ensures next < end ==> BlockEnd(next) == BlockEnd(pos)
    ensures end == size < BlockEnd(pos) ==> size < BlockEnd(next)
  {
  }

  /** What the header in the buffer says is what the bytes of the file say. */
  lemma ParsedFromBuffer(crc: Crc, file: Bytes, pos: nat, buffer: Bytes)
    requires pos + |buffer| == BufferEnd(file, pos) && buffer == file[pos..pos + |buffer|] && |buffer| >= HEADER_SIZE
    ensures var length, kind, end := buffer[4] as int + 256 * buffer[5] as int, buffer[6], pos + |buffer|;
            ParseFragment(crc, file, pos) ==
            if HEADER_SIZE + length > |buffer| then (if BlockEnd(pos) <= |file| then Bad(end, |buffer|) else Eof)
            else if kind == ZERO_TYPE && length == 0 then Bad(end, 0)
            else if Unmask(DecodeFixed(buffer[..4]) % UINT32_LIMIT) != crc(buffer[6..HEADER_SIZE + length])
                 then Bad(end, |buffer|)
            else Fragment(kind, buffer[HEADER_SIZE..HEADER_SIZE + length], pos + HEADER_SIZE + length)
  {
    BufferBytes(file, pos, buffer, buffer[4] as int + 256 * buffer[5] as int);
  }

  lemma BufferBytes(file: Bytes, pos: nat, buffer: Bytes, length: nat)
    requires pos + |buffer| <= |file| && buffer == file[pos..pos + |buffer|] && |buffer| >= HEADER_SIZE
    ensures buffer[4] == file[pos + 4] && buffer[5] == file[pos + 5] && buffer[6] == file[pos + 6]
      && buffer[..4] == file[pos..pos + 4]
    ensures HEADER_SIZE + length <= |buffer| ==>
              && buffer[6..HEADER_SIZE + length] == file[pos + 6..pos + HEADER_SIZE + length]
              && buffer[HEADER_SIZE..HEADER_SIZE + length] == file[pos + HEADER_SIZE..pos + HEADER_SIZE + length]
  {
    HeaderBytes(file, file, pos, buffer);
    assert HEADER_SIZE + length <= |buffer| ==> buffer[..HEADER_SIZE + length] == file[pos..pos + HEADER_SIZE + length];
    if HEADER_SIZE + length <= |buffer| {
      var r := buffer[..HEADER_SIZE + length];
      HeaderBytes(file, file, pos, r);
      assert r[6..] == buffer[6..HEADER_SIZE + length] && r[7..] == buffer[HEADER_SIZE..HEADER_SIZE + length];
    }
  }

  /** Record k starts at starts[k] and ends at ends[k + 1]; the file may end anywhere. */
  ghost predicate Layout(crc: Crc, file: Bytes, records: seq<Bytes>, starts: seq<nat>, ends: seq<nat>) {
    && |starts| == |records| && |ends| == |records| + 1 && ends[0] == 0
    && forall k :: 0 <= k <= |records| ==> ReadsBack(crc, file, records, starts, ends, k)
  }

  ghost predicate ReadsBack(crc: Crc, file: Bytes, records: seq<Bytes>, starts: seq<nat>, ends: seq<nat>, k: nat)
    requires k <= |records| == |starts| && |ends| == |records| + 1
  {
    ends[k] <= |file| ==> NextLogical(crc, file, ends[k], NOTHING_YET, []) == Outcome(file, records, starts, ends, k)
  }

  ghost function Outcome(file: Bytes, records: seq<Bytes>, starts: seq<nat>, ends: seq<nat>, k: nat): Logical
    requires k <= |records| == |starts| && |ends| == |records| + 1
  {
    if k < |records| then WholeOrNothing(file, records[k], starts[k], ends[k + 1], []) else NoRecord([])
  }

  lemma WrittenLayout(crc: Crc, file: Bytes, records: seq<Bytes>) returns (starts: seq<nat>, ends: seq<nat>)
    requires file <= FileOf(crc, records)
    ensures Layout(crc, file, records, starts, ends)
    ensures forall k :: 0 <= k < |records| ==> starts[k] == StartOf(crc, records, k)
    ensures forall k :: 0 <= k <= |records| ==> ends[k] == EndOf(crc, records, k)
  {
    starts := seq(|records|, k requires 0 <= k < |records| => StartOf(crc, records, k));
    ends := seq(|records| + 1, k requires 0 <= k <= |records| => EndOf(crc, records, k));
    forall k | 0 <= k <= |records| ensures ReadsBack(crc, file, records, starts, ends, k) {
      if ends[k] <= |file| {
        if k < |records| {
          PrefixReadsBack(crc, records, file, k, []);
        } else {
          assert records[..k] == records;
          AtEndOfFile(crc, file, []);
        }
      }
    }
  }

  /** One ReadRecord at the start of record k, or behind the last one. */
  method ReadNext(reader: Reader, ghost records: seq<Bytes>, ghost starts: seq<nat>, ghost ends: seq<nat>, ghost k: nat)
    returns (record: Option<Bytes>)
    requires reader.Valid() && reader.drops == [] && Layout(reader.crc, reader.file, records, starts, ends)
    requires k <= |records| && reader.Position() == ends[k] <= |reader.file|
    modifies reader
    ensures reader.Valid() && reader.drops == []
    ensures record == None ==> k == |records| || |reader.file| < ends[k + 1]
    ensures record.Some? ==> k < |records| && record.value == records[k] && reader.lastRecordOffset == starts[k]
    ensures record.Some? ==> reader.Position() == ends[k + 1] <= |reader.file|
  {
    assert ReadsBack(reader.crc, reader.file, records, starts, ends, k);
    ghost var outcome := Outcome(reader.file, records, starts, ends, k);
    record := reader.ReadRecord();
    assert reader.Returned(outcome, record);
  }

  lemma OneMoreTaken<T>(taken: seq<T>, all: seq<T>, k: nat)
    requires k < |all| && taken == all[..k]
    ensures taken + [all[k]] == all[..k + 1]
  {
  }

  /** ReadRecord until there is no more. */
  method ReadAll(crc: Crc, file: Bytes, ghost records: seq<Bytes>, ghost starts: seq<nat>, ghost ends: seq<nat>)
    returns (found: seq<Bytes>, offsets: seq<nat>, drops: seq<nat>)
    requires Layout(crc, file, records, starts, ends)
    ensures |found| <= |records| && found == records[..|found|] && offsets == starts[..|found|] && drops == []
    ensures ends[|found|] <= |file|
    ensures |found| < |records| ==> |file| < ends[|found| + 1]
  {
    found, offsets := [], [];
    var reader := new Reader(crc, file);
    ghost var k: nat := 0;
    while true
      invariant reader.Valid() && reader.crc == crc && reader.file == file && fresh(reader) && reader.drops == []
      invariant k <= |records| && found == records[..k] && offsets == starts[..k]
        && reader.Position() == ends[k] <= |file|
      decreases |records| - k
    {
      var record := ReadNext(reader, records, starts, ends, k);
      if record == None {
        break;
      }
      OneMoreTaken(found, records, k);
      OneMoreTaken(offsets, starts, k);
      found := found + [record.value];
      offsets := offsets + [reader.lastRecordOffset];
      k := k + 1;
    }
    drops := reader.drops;
  }

  /** Reading a file that is any prefix of what was written: exactly the records wholly inside come
      back, each at its true start, and no corruption is reported. */
  method ReadPrefix(crc: Crc, file: Bytes, ghost records: seq<Bytes>)
    returns (found: seq<Bytes>, offsets: seq<nat>, drops: seq<nat>)
    requires file <= FileOf(crc, records)
    ensures |found| <= |records| && found == records[..|found|] && |offsets| == |found| && drops == []
    ensures EndOf(crc, records, |found|) <= |file|
    ensures |found| < |records| ==> |file| < EndOf(crc, records, |found| + 1)
    ensures forall k :: 0 <= k < |found| ==> offsets[k] == StartOf(crc, records, k)
  {
    ghost var starts, ends := WrittenLayout(crc, file, records);
    found, offsets, drops := ReadAll(crc, file, records, starts, ends);
  }

  /** Written in any sessions, cut off anywhere, read: exactly the records that are wholly there. */
  method WriteCutRead(crc: Crc, sessions: seq<seq<Bytes>>, length: nat)
    returns (found: seq<Bytes>, offsets: seq<nat>, drops: seq<nat>)
    ensures var records := AllRecords(sessions);
      && |found| <= |records| && found == records[..|found|] && |offsets| == |found| && drops == []
      && (length >= EndOf(crc, records, |records|) ==> found == records)
      && (|found| < |records| ==> EndOf(crc, records, |found|) <= length < EndOf(crc, records, |found| + 1))
      && forall k :: 0 <= k < |found| ==> offsets[k] == StartOf(crc, records, k)
  {
    var file := WriteSessions(crc, sessions);
    var records := AllRecords(sessions);
    found, offsets, drops := ReadPrefix(crc, if length < |file| then file[..length] else file, records);
    EndsWithin(crc, records, |found|);
  }

  lemma EndsWithin(crc: Crc, records: seq<Bytes>, k: nat)
    requires k <= |records|
    ensures EndOf(crc, records, |records|) == |FileOf(crc, records)|
    ensures k < |records| ==> EndOf(crc, records, k + 1) <= |FileOf(crc, records)|
  {
    assert records[..|records|] == records;
    if k < |records| {
      EarlierFile(crc, records, k + 1);
    }
  }
}
