// The log format: records cut into fragments that fit blocks (db/log_format.h, db/log_writer.cc,
// db/log_reader.cc).

module LogFormat {
  import opened DbFormat
  import opened Coding

  const BLOCK_SIZE := 32768
  const HEADER_SIZE := 7

  const ZERO_TYPE: Byte := 0
  const FULL_TYPE: Byte := 1
  const FIRST_TYPE: Byte := 2
  const MIDDLE_TYPE: Byte := 3
  const LAST_TYPE: Byte := 4

  type UInt32 = n: nat | n < 0x1_0000_0000

  /** crc32c::Value: what matters here is that it is a function. */
  type Crc = Bytes -> UInt32

  const MASK_DELTA := 0xa282ead8

  /** Rotate right by 15 bits and add a constant. */
  function Mask(crc: UInt32): UInt32 {
    (crc / 32768 + crc % 32768 * 131072 + MASK_DELTA) % UINT32_LIMIT
  }

  function Unmask(masked: UInt32): UInt32 {
    var rot := (masked - MASK_DELTA) % UINT32_LIMIT;
    rot / 131072 + rot % 131072 * 32768
  }

  lemma UnmaskUndoesMask(crc: UInt32)
    ensures Unmask(Mask(crc)) == crc
  {
    var rot := crc / 32768 + crc % 32768 * 131072;
    assert 0 <= rot < UINT32_LIMIT;
    assert (Mask(crc) - MASK_DELTA) % UINT32_LIMIT == rot;
    assert rot / 131072 == crc % 32768 && rot % 131072 == crc / 32768;
  }

  /** A checksum as a header holds it. */
  function StoredCrc(c: UInt32): (r: Bytes)
    ensures |r| == 4 && DecodeFixed(r) == c
  {
    FixedWidths();
    FixedRoundTrip(c, 4);
    PutFixed(c, 4)
  }

  function Checksum(crc: Crc, kind: Byte, payload: Bytes): UInt32 {
    Mask(crc([kind] + payload))
  }

  /** Checksum, length in two bytes, type, payload. */
  function PhysicalRecord(crc: Crc, kind: Byte, payload: Bytes): (r: Bytes)
    requires |payload| < 65536
    ensures |r| == HEADER_SIZE + |payload|
  {
    StoredCrc(Checksum(crc, kind, payload)) + [|payload| % 256, |payload| / 256, kind] + payload
  }

  lemma RecordParts(crc: Crc, kind: Byte, payload: Bytes)
    requires |payload| < 65536
    ensures var r := PhysicalRecord(crc, kind, payload);
            && |r| == HEADER_SIZE + |payload| && DecodeFixed(r[..4]) == Checksum(crc, kind, payload)
            && r[4] as int + 256 * r[5] as int == |payload| && r[6] == kind && r[6..] == [kind] + payload
              && r[7..] == payload
  {
    var c := StoredCrc(Checksum(crc, kind, payload));
    var r := PhysicalRecord(crc, kind, payload);
    assert r == c + ([|payload| % 256, |payload| / 256, kind] + payload);
    assert r[..4] == c;
  }

  function BlockEnd(pos: nat): nat {
    pos - pos % BLOCK_SIZE + BLOCK_SIZE
  }

  /** No header begins in the last six bytes of a block: they are filled with zeros. */
  function PadLength(pos: nat): nat {
    var leftover := BLOCK_SIZE - pos % BLOCK_SIZE;
    if leftover < HEADER_SIZE then leftover else 0
  }

  function Zeros(n: nat): (r: Bytes)
    ensures |r| == n
  {
    seq(n, _ => 0)
  }

  /** How much payload fits behind a header at this position. */
  function Available(pos: nat): (n: nat)
    requires PadLength(pos) == 0
    ensures n <= BLOCK_SIZE - HEADER_SIZE
  {
    BLOCK_SIZE - pos % BLOCK_SIZE - HEADER_SIZE
  }

  function KindOf(begin: bool, end: bool): Byte {
    if begin && end then FULL_TYPE else if begin then FIRST_TYPE else if end then LAST_TYPE else MIDDLE_TYPE
  }

  function FragmentLength(pos: nat, left: nat): (n: nat)
    ensures n <= left && n <= BLOCK_SIZE - HEADER_SIZE
  {
    var avail := Available(pos + PadLength(pos));
    if left < avail then left else avail
  }

  /** What AddRecord appends to a file of length pos for what is left of a record. */
  function Encode(crc: Crc, pos: nat, data: Bytes, begin: bool): Bytes
    decreases |data|, if FragmentLength(pos, |data|) == 0 then 1 else 0
  {
    var n := FragmentLength(pos, |data|);
    var bytes := Zeros(PadLength(pos)) + PhysicalRecord(crc, KindOf(begin, n == |data|), data[..n]);
    if n == |data| then bytes
    else
      NextBlockHasRoom(pos, |data|);
      bytes + Encode(crc, pos + |bytes|, data[n..], false)
  }

  /** A fragment that is not the last one fills its block. */
  lemma NextBlockHasRoom(pos: nat, left: nat)
    requires FragmentLength(pos, left) < left
    ensures (pos + PadLength(pos) + HEADER_SIZE + FragmentLength(pos, left)) % BLOCK_SIZE == 0
    ensures FragmentLength(pos + PadLength(pos) + HEADER_SIZE + FragmentLength(pos, left),
                           left - FragmentLength(pos, left)) > 0
  {
  }

  function FileOf(crc: Crc, records: seq<Bytes>): Bytes {
    if records == [] then []
    else
      var before := FileOf(crc, records[..|records| - 1]);
      before + Encode(crc, |before|, records[|records| - 1], true)
  }
}
