/** Reading back what was written, or any prefix of it. */
module LogRoundTrip {
  import opened Coding
  import opened LogFormat
  import opened LogWriters
  import opened LogParsing

  /** The bytes of part stand in the whole at this position. */
  ghost predicate StandsAt(whole: Bytes, pos: nat, part: Bytes) {
    pos + |part| <= |whole| && whole[pos..pos + |part|] == part
  }

  /** A header within its block, in a file that may have lost its tail. */
  lemma HeaderReadsBack(crc: Crc, file: Bytes, whole: Bytes, pos: nat, kind: Byte, payload: Bytes)
    requires file <= whole && PadLength(pos) == 0 && |payload| <= Available(pos) && kind != ZERO_TYPE
    requires StandsAt(whole, pos, PhysicalRecord(crc, kind, payload))
    ensures NextPhysical(crc, file, pos) ==
            if pos + HEADER_SIZE + |payload| <= |file|
              then Fragment(kind, payload, pos + HEADER_SIZE + |payload|) else Eof
  {
    assert pos + HEADER_SIZE + |payload| <= BlockEnd(pos);
    if pos + HEADER_SIZE <= |file| {
      var r := PhysicalRecord(crc, kind, payload);
      RecordParts(crc, kind, payload);
      HeaderBytes(file, whole, pos, r);
      FragmentParses(crc, file, pos, kind, payload);
    }
  }

  lemma FragmentParses(crc: Crc, file: Bytes, pos: nat, kind: Byte, payload: Bytes)
    requires pos + HEADER_SIZE + |payload| <= BlockEnd(pos) && kind != ZERO_TYPE && pos + HEADER_SIZE <= |file|
    requires file[pos + 4] as int + 256 * file[pos + 5] as int == |payload| && file[pos + 6] == kind
    requires DecodeFixed(file[pos..pos + 4]) == Checksum(crc, kind, payload)
    requires pos + HEADER_SIZE + |payload| <= |file| ==>
               file[pos + 6..pos + HEADER_SIZE + |payload|] == [kind] + payload
                 && file[pos + HEADER_SIZE..pos + HEADER_SIZE + |payload|] == payload
    ensures ParseFragment(crc, file, pos) ==
            if pos + HEADER_SIZE + |payload| <= |file|
              then Fragment(kind, payload, pos + HEADER_SIZE + |payload|) else Eof
  {
    UnmaskUndoesMask(crc([kind] + payload));
  }

  lemma HeaderBytes(file: Bytes, whole: Bytes, pos: nat, r: Bytes)
    requires file <= whole && |r| >= HEADER_SIZE && StandsAt(whole, pos, r) && pos + HEADER_SIZE <= |file|
    ensures file[pos + 4] == r[4] && file[pos + 5] == r[5] && file[pos + 6] == r[6] && file[pos..pos + 4] == r[..4]
    ensures pos + |r| <= |file| ==> file[pos + 6..pos + |r|] == r[6..] && file[pos + HEADER_SIZE..pos + |r|] == r[7..]
  {
    assert forall k :: 0 <= k < |r| && pos + k < |file| ==> r[k] == file[pos + k] by {
      assert forall k :: 0 <= k < |r| ==> r[k] == whole[pos..pos + |r|][k];
    }
  }

  lemma SkipTrailer(crc: Crc, file: Bytes, pos: nat, start: nat)
    requires pos <= |file| && start == pos + PadLength(pos)
    ensures PadLength(start) == 0
    ensures NextPhysical(crc, file, pos) == if start <= |file| then NextPhysical(crc, file, start) else Eof
  {
    if PadLength(pos) > 0 {
      assert BlockEnd(pos) == pos + PadLength(pos);
    }
  }

  /** Past the zeros of a trailer, if the file reaches that far. */
  lemma FragmentReadsBack(crc: Crc, file: Bytes, whole: Bytes, pos: nat, kind: Byte, payload: Bytes)
    requires file <= whole && pos <= |file| && |payload| <= Available(pos + PadLength(pos)) && kind != ZERO_TYPE
    requires StandsAt(whole, pos, Zeros(PadLength(pos)) + PhysicalRecord(crc, kind, payload))
    ensures var next := pos + PadLength(pos) + HEADER_SIZE + |payload|;
            NextPhysical(crc, file, pos) == if next <= |file| then Fragment(kind, payload, next) else Eof
  {
    var start := pos + PadLength(pos);
    RecordAfterPad(whole, pos, Zeros(PadLength(pos)), PhysicalRecord(crc, kind, payload));
    SkipTrailer(crc, file, pos, start);
    if start <= |file| {
      HeaderReadsBack(crc, file, whole, start, kind, payload);
    }
  }

  lemma RecordAfterPad(whole: Bytes, pos: nat, pad: Bytes, r: Bytes)
    requires StandsAt(whole, pos, pad + r)
    ensures StandsAt(whole, pos + |pad|, r)
  {
    assert (pad + r)[|pad|..] == r;
  }

  lemma SplitStanding(whole: Bytes, pos: nat, a: Bytes, b: Bytes)
    requires StandsAt(whole, pos, a + b)
    ensures StandsAt(whole, pos, a) && StandsAt(whole, pos + |a|, b)
  {
    assert (a + b)[..|a|] == a && (a + b)[|a|..] == b;
  }

  /** What ReadRecord makes of one fragment that the writer emitted. */
  lemma LogicalStep(crc: Crc, file: Bytes, pos: nat, begin: bool, end: bool, payload: Bytes, next: nat, scratch: Bytes,
                    start: nat, drops: seq<nat>)
    requires NextPhysical(crc, file, pos) == Fragment(KindOf(begin, end), payload, next)
    ensures var offset, scratch' := next - HEADER_SIZE - |payload|, if begin then payload else scratch + payload;
            NextLogical(crc, file, pos, Partial(!begin, scratch, start), drops) ==
            if end then Record(scratch', if begin then offset else start, next, drops)
            else NextLogical(crc, file, next, Partial(true, scratch', if begin then offset else start), drops)
  {
  }

  lemma EncodeParts(crc: Crc, pos: nat, data: Bytes, begin: bool)
    ensures var n := FragmentLength(pos, |data|);
            var bytes := Zeros(PadLength(pos)) + PhysicalRecord(crc, KindOf(begin, n == |data|), data[..n]);
            Encode(crc, pos, data, begin) == bytes + Rest(crc, pos + |bytes|, data[n..])
  {
    EncodeStep(crc, Zeros(pos), data, begin);
    var n := FragmentLength(pos, |data|);
    var bytes := Zeros(PadLength(pos)) + PhysicalRecord(crc, KindOf(begin, n == |data|), data[..n]);
    assert Rest(crc, pos + |bytes|, data[n..]) == [] ==> bytes + Rest(crc, pos + |bytes|, data[n..]) == bytes;
  }

  lemma LogicalEof(crc: Crc, file: Bytes, pos: nat, inFragment: bool, scratch: Bytes, start: nat, drops: seq<nat>)
    requires NextPhysical(crc, file, pos) == Eof
    ensures NextLogical(crc, file, pos, Partial(inFragment, scratch, start), drops) == NoRecord(drops)
  {
  }

  /** A record that ends at next, if the file reaches that far; a torn one is not reported. */
  function WholeOrNothing(file: Bytes, data: Bytes, start: nat, next: nat, drops: seq<nat>): Logical {
    if next > |file| then NoRecord(drops) else Record(data, start, next, drops)
  }

  /** The first fragment, and what reads back after it, make up what reads back. */
  lemma JoinFragment(crc: Crc, file: Bytes, pos: nat, begin: bool, payload: Bytes, next: nat, tail: Bytes,
                     scratch: Bytes, given: nat, start: nat, total: nat, drops: seq<nat>)
    requires NextPhysical(crc, file, pos) == if next <= |file|
      then Fragment(KindOf(begin, tail == []), payload, next) else Eof
    requires next <= total && (tail == [] ==> next == total)
    requires if begin then scratch == [] && start == next - HEADER_SIZE - |payload| else given == start
    requires tail != [] && next <= |file| ==>
               NextLogical(crc, file, next, Partial(true, scratch + payload, start), drops)
                 == WholeOrNothing(file, scratch + payload + tail, start, total, drops)
    ensures NextLogical(crc, file, pos, Partial(!begin, scratch, given), drops)
      == WholeOrNothing(file, scratch + payload + tail, start, total, drops)
  {
    Associates(scratch, payload, tail);
    if next > |file| {
      LogicalEof(crc, file, pos, !begin, scratch, given, drops);
    } else {
      LogicalStep(crc, file, pos, begin, tail == [], payload, next, scratch, given, drops);
    }
  }

  lemma JoinFirst(crc: Crc, file: Bytes, pos: nat, payload: Bytes, next: nat, tail: Bytes, start: nat, total: nat,
                  drops: seq<nat>)
    requires Joins(crc, file, pos, true, payload, next, tail, [], start, total, drops)
      && start == next - HEADER_SIZE - |payload|
    ensures NextLogical(crc, file, pos, NOTHING_YET, drops) == WholeOrNothing(file, payload + tail, start, total, drops)
  {
    Associates([], payload, tail);
    JoinFragment(crc, file, pos, true, payload, next, tail, [], 0, start, total, drops);
  }

  /** The first fragment of what is left of a record, as the writer placed it and the reader finds it. */
  lemma OneFragment(crc: Crc, file: Bytes, whole: Bytes, pos: nat, data: Bytes, begin: bool)
    returns (payload: Bytes, tail: Bytes, next: nat, total: nat)
    requires file <= whole && pos <= |file| && StandsAt(whole, pos, Encode(crc, pos, data, begin))
    ensures data == payload + tail && next == pos + PadLength(pos) + HEADER_SIZE + |payload|
    ensures total == pos + |Encode(crc, pos, data, begin)| && next <= total && (tail == [] ==> next == total)
    ensures tail != [] ==> total == next + |Encode(crc, next, tail, false)|
                           && StandsAt(whole, next, Encode(crc, next, tail, false))
    ensures NextPhysical(crc, file, pos) == if next <= |file|
      then Fragment(KindOf(begin, tail == []), payload, next) else Eof
  {
    var bytes, rest;
    payload, tail, bytes, rest := FirstPart(crc, pos, data, begin);
    next, total := pos + |bytes|, pos + |bytes| + |rest|;
    SplitStanding(whole, pos, bytes, rest);
    FragmentReadsBack(crc, file, whole, pos, KindOf(begin, tail == []), payload);
  }

  /** The bytes of the first fragment, and of the others. */
  lemma FirstPart(crc: Crc, pos: nat, data: Bytes, begin: bool)
    returns (payload: Bytes, tail: Bytes, bytes: Bytes, rest: Bytes)
    ensures data == payload + tail && |payload| <= Available(pos + PadLength(pos))
      && Encode(crc, pos, data, begin) == bytes + rest
    ensures bytes == Zeros(PadLength(pos)) + PhysicalRecord(crc, KindOf(begin, tail == []), payload)
    ensures |bytes| == PadLength(pos) + HEADER_SIZE + |payload|
    ensures rest == if tail == [] then [] else Encode(crc, pos + |bytes|, tail, false)
  {
    var n := FragmentLength(pos, |data|);
    payload, tail := data[..n], data[n..];
    bytes := Zeros(PadLength(pos)) + PhysicalRecord(crc, KindOf(begin, n == |data|), payload);
    rest := Rest(crc, pos + |bytes|, tail);
    EncodeParts(crc, pos, data, begin);
  }

  /** What JoinFragment needs to know of a fragment and of what reads back after it. */
  ghost predicate Joins(crc: Crc, file: Bytes, pos: nat, begin: bool, payload: Bytes, next: nat, tail: Bytes,
                        scratch: Bytes, start: nat,
                        total: nat, drops: seq<nat>) {
    && NextPhysical(crc, file, pos) == (if next <= |file|
                                        then Fragment(KindOf(begin, tail == []), payload, next) else Eof)
    && HEADER_SIZE + |payload| <= next <= total && (tail == [] ==> next == total)
    && (tail != [] && next <= |file| ==>
          NextLogical(crc, file, next, Partial(true, scratch + payload, start), drops)
            == WholeOrNothing(file, scratch + payload + tail, start, total, drops))
  }

  /** The first fragment of what is left, and that the others read back. */
  lemma {:induction false} FirstJoins(crc: Crc, file: Bytes, whole: Bytes, pos: nat, data: Bytes, begin: bool,
                                      scratch: Bytes, start: nat, drops: seq<nat>)
    returns (payload: Bytes, tail: Bytes, next: nat, total: nat)
    requires file <= whole && pos <= |file| && StandsAt(whole, pos, Encode(crc, pos, data, begin))
    requires begin ==> scratch == [] && start == pos + PadLength(pos)
    ensures data == payload + tail && next == pos + PadLength(pos) + HEADER_SIZE + |payload|
      && total == pos + |Encode(crc, pos, data, begin)|
    ensures Joins(crc, file, pos, begin, payload, next, tail, scratch, start, total, drops)
    decreases |file| - pos, 0
  {
    payload, tail, next, total := OneFragment(crc, file, whole, pos, data, begin);
    if tail != [] && next <= |file| {
      RestReadsBack(crc, file, whole, next, tail, scratch + payload, start, total, drops);
    }
  }

  /** What is left of a record reads back whole if the file has all of it; otherwise nothing comes
      back and nothing is reported. */
  lemma {:induction false} RestReadsBack(crc: Crc, file: Bytes, whole: Bytes, pos: nat, data: Bytes, scratch: Bytes,
                                         start: nat, total: nat, drops: seq<nat>)
    requires file <= whole && pos <= |file| && StandsAt(whole, pos, Encode(crc, pos, data, false))
      && total == pos + |Encode(crc, pos, data, false)|
    ensures NextLogical(crc, file, pos, Partial(true, scratch, start), drops)
      == WholeOrNothing(file, scratch + data, start, total, drops)
    decreases |file| - pos, 1
  {
    var payload, tail, next, _ := FirstJoins(crc, file, whole, pos, data, false, scratch, start, drops);
    JoinRest(crc, file, pos, payload, next, tail, scratch, start, total, drops);
  }

  lemma JoinRest(crc: Crc, file: Bytes, pos: nat, payload: Bytes, next: nat, tail: Bytes, scratch: Bytes, start: nat,
                 total: nat, drops: seq<nat>)
    requires Joins(crc, file, pos, false, payload, next, tail, scratch, start, total, drops)
    ensures NextLogical(crc, file, pos, Partial(true, scratch, start), drops)
      == WholeOrNothing(file, scratch + (payload + tail), start, total, drops)
  {
    JoinFragment(crc, file, pos, false, payload, next, tail, scratch, start, start, total, drops);
    Associates(scratch, payload, tail);
  }

  lemma RecordReadsBack(crc: Crc, file: Bytes, whole: Bytes, pos: nat, data: Bytes, drops: seq<nat>)
    requires file <= whole && pos <= |file| && StandsAt(whole, pos, Encode(crc, pos, data, true))
    ensures NextLogical(crc, file, pos, NOTHING_YET, drops) ==
            WholeOrNothing(file, data, pos + PadLength(pos), pos + |Encode(crc, pos, data, true)|, drops)
  {
    RecordBetween(crc, file, whole, pos, data, pos + PadLength(pos), pos + |Encode(crc, pos, data, true)|, drops);
  }

  lemma RecordBetween(crc: Crc, file: Bytes, whole: Bytes, pos: nat, data: Bytes, start: nat, total: nat,
                      drops: seq<nat>)
    requires file <= whole && pos <= |file| && StandsAt(whole, pos, Encode(crc, pos, data, true))
    requires start == pos + PadLength(pos) && total == pos + |Encode(crc, pos, data, true)|
    ensures NextLogical(crc, file, pos, NOTHING_YET, drops) == WholeOrNothing(file, data, start, total, drops)
  {
    var payload, tail, next, _ := FirstJoins(crc, file, whole, pos, data, true, [], start, drops);
    JoinFirst(crc, file, pos, payload, next, tail, start, total, drops);
  }

  lemma {:induction false} EarlierFile(crc: Crc, records: seq<Bytes>, k: nat)
    requires k <= |records|
    ensures FileOf(crc, records[..k]) <= FileOf(crc, records)
    decreases |records|
  {
    if k < |records| {
      EarlierFile(crc, records[..|records| - 1], k);
      assert records[..|records| - 1][..k] == records[..k];
    } else {
      assert records[..k] == records;
    }
  }

  /** Where the records truly start, past the trailer if there is one, and where they end. */
  function StartOf(crc: Crc, records: seq<Bytes>, k: nat): nat
    requires k < |records|
  {
    EndOf(crc, records, k) + PadLength(EndOf(crc, records, k))
  }

  function EndOf(crc: Crc, records: seq<Bytes>, k: nat): nat
    requires k <= |records|
  {
    |FileOf(crc, records[..k])|
  }

  lemma NextFile(crc: Crc, records: seq<Bytes>, k: nat)
    requires k < |records|
    ensures var pos := |FileOf(crc, records[..k])|;
            && |FileOf(crc, records[..k + 1])| == pos + |Encode(crc, pos, records[k], true)|
            && StandsAt(FileOf(crc, records), pos, Encode(crc, pos, records[k], true))
  {
    var before, upto := records[..k], records[..k + 1];
    assert upto[..|upto| - 1] == before && upto[|upto| - 1] == records[k];
    var e := Encode(crc, |FileOf(crc, before)|, records[k], true);
    assert FileOf(crc, upto) == FileOf(crc, before) + e;
    EarlierFile(crc, records, k + 1);
    StandsInPrefix(FileOf(crc, before), e, FileOf(crc, records));
  }

  lemma StandsInPrefix(a: Bytes, e: Bytes, whole: Bytes)
    requires a + e <= whole
    ensures StandsAt(whole, |a|, e)
  {
    assert (a + e)[|a|..] == e;
  }

  /** After the first k records, ReadRecord on any prefix of a written file finds the next one whole,
      at its true start, or nothing at all; and it reports nothing. */
  lemma PrefixReadsBack(crc: Crc, records: seq<Bytes>, file: Bytes, k: nat, drops: seq<nat>)
    requires file <= FileOf(crc, records) && k < |records| && EndOf(crc, records, k) <= |file|
    ensures NextLogical(crc, file, EndOf(crc, records, k), NOTHING_YET, drops) ==
            WholeOrNothing(file, records[k], StartOf(crc, records, k), EndOf(crc, records, k + 1), drops)
  {
    NextFile(crc, records, k);
    RecordReadsBack(crc, file, FileOf(crc, records), EndOf(crc, records, k), records[k], drops);
  }

  lemma AtEndOfFile(crc: Crc, file: Bytes, drops: seq<nat>)
    ensures NextLogical(crc, file, |file|, NOTHING_YET, drops) == NoRecord(drops)
  {
    assert NextPhysical(crc, file, |file|) == Eof;
  }
}
