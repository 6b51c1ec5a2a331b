/** What a reader makes of the bytes from a position on, whatever they are. */
module LogParsing {
  import opened Coding
  import opened LogFormat

  /** What ReadPhysicalRecord finds: the end, something it drops bytes for, or a fragment. */
  datatype Physical = Eof | Bad(next: nat, dropped: nat) | Fragment(kind: Byte, payload: Bytes, next: nat)

  function BufferEnd(file: Bytes, pos: nat): nat {
    if BlockEnd(pos) <= |file| then BlockEnd(pos) else |file|
  }

  /** The header and payload at pos; at least a header's worth of bytes is left in the buffer. */
  function ParseFragment(crc: Crc, file: Bytes, pos: nat): (r: Physical)
    requires pos + HEADER_SIZE <= BufferEnd(file, pos)
    ensures r.Bad? || r.Fragment? ==> pos < r.next <= |file|
    ensures r.Fragment? ==> pos + HEADER_SIZE + |r.payload| == r.next
  {
    var end := BufferEnd(file, pos);
    var length: nat, kind := file[pos + 4] as int + 256 * file[pos + 5] as int, file[pos + 6];
    if HEADER_SIZE + length > end - pos then
      if BlockEnd(pos) <= |file| then Bad(end, end - pos) else Eof
    else if kind == ZERO_TYPE && length == 0 then Bad(end, 0)
    else if Unmask(DecodeFixed(file[pos..pos + 4]) % UINT32_LIMIT) != crc(file[pos + 6..pos + HEADER_SIZE + length])
         then Bad(end, end - pos)
    else Fragment(kind, file[pos + HEADER_SIZE..pos + HEADER_SIZE + length], pos + HEADER_SIZE + length)
  }

  function NextPhysical(crc: Crc, file: Bytes, pos: nat): (r: Physical)
    ensures r.Bad? || r.Fragment? ==> pos < r.next <= |file|
    ensures r.Fragment? ==> pos + HEADER_SIZE + |r.payload| <= r.next
    decreases |file| - pos
  {
    if pos + HEADER_SIZE <= BufferEnd(file, pos) then ParseFragment(crc, file, pos)
    else if BlockEnd(pos) <= |file| then NextPhysical(crc, file, BlockEnd(pos))
    else Eof
  }

  /** What ReadRecord returns: a record, its offset and where to go on, or nothing; and what it
      reported as dropped. */
  datatype Logical = Record(data: Bytes, offset: nat, next: nat, drops: seq<nat>) | NoRecord(drops: seq<nat>)

  function Drop(drops: seq<nat>, condition: bool, bytes: nat): seq<nat> {
    if condition then drops + [bytes] else drops
  }

  /** What ReadRecord has gathered of a fragmented record. */
  datatype Partial = Partial(inFragment: bool, scratch: Bytes, start: nat)

  const NOTHING_YET := Partial(false, [], 0)

  function NextLogical(crc: Crc, file: Bytes, pos: nat, p: Partial, drops: seq<nat>): (r: Logical)
    ensures r.Record? ==> pos < r.next <= |file|
    decreases |file| - pos, 0
  {
    match NextPhysical(crc, file, pos)
    case Eof => NoRecord(drops)
    case Bad(next, dropped) =>
      NextLogical(crc, file, next, Partial(false, if p.inFragment then [] else p.scratch, p.start),
                  Drop(Drop(drops, dropped > 0, dropped), p.inFragment, |p.scratch|))
    case Fragment(kind, payload, next) => AfterFragment(crc, file, kind, payload, next, p, drops)
  }

  /** What reading comes to when this fragment, which ends at next, has been found. */
  function AfterFragment(crc: Crc, file: Bytes, kind: Byte, payload: Bytes, next: nat, p: Partial,
                         drops: seq<nat>): (r: Logical)
    requires HEADER_SIZE + |payload| <= next <= |file|
    ensures r.Record? ==> next <= r.next <= |file|
    decreases |file| - next, 1
  {
    match Gather(kind, payload, next, p, drops)
    case Done(data, start, d) => Record(data, start, next, d)
    case More(p', d) => NextLogical(crc, file, next, p', d)
    case Ended(d) => NoRecord(d)
  }

  /** A complete record and its offset, what has been gathered so far, or the end. */
  datatype Gathered = Done(data: Bytes, start: nat,
                           drops: seq<nat>) | More(partial: Partial, drops: seq<nat>) | Ended(drops: seq<nat>)

  /** ReadPhysicalRecord returns the type byte of a fragment, or one of these two for the end of the file
      and for a bad record; a fragment with such a type byte is taken for the same. */
  const EOF_CODE: Byte := 5
  const BAD_RECORD_CODE: Byte := 6

  function Gather(kind: Byte, payload: Bytes, next: nat, p: Partial, drops: seq<nat>): Gathered
    requires HEADER_SIZE + |payload| <= next
  {
    var offset := next - HEADER_SIZE - |payload|;
    if kind == FULL_TYPE then Done(payload, offset, Drop(drops, p.inFragment && p.scratch != [], |p.scratch|))
    else if kind == FIRST_TYPE then More(Partial(true, payload, offset),
                                         Drop(drops, p.inFragment && p.scratch != [], |p.scratch|))
    else if kind == MIDDLE_TYPE then
      if p.inFragment then More(Partial(true, p.scratch + payload, p.start), drops) else More(p, drops + [|payload|])
    else if kind == LAST_TYPE then
      if p.inFragment then Done(p.scratch + payload, p.start, drops) else More(p, drops + [|payload|])
    else if kind == EOF_CODE then Ended(drops)
    else if kind == BAD_RECORD_CODE then
      More(Partial(false, if p.inFragment then [] else p.scratch, p.start), Drop(drops, p.inFragment, |p.scratch|))
    else More(Partial(false, [], p.start), drops + [|payload| + if p.inFragment then |p.scratch| else 0])
  }
}
