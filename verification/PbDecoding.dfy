// The decoder as functions of its input, whatever that is (nanopb: pb_decode.c).

module PbDecoding {
  import opened DbFormat
  import opened Coding
  import opened PbMessages

  /** The bytes of a varint after the first, for a 32-bit result. k bytes have been read; beyond the
      fifth only zeros, or the sign of a negative number, are accepted. */
  function MoreVarint32(input: Bytes, k: nat, result: nat): (r: Option<(nat, Bytes)>)
    requires k >= 1
    ensures r.Some? ==> |r.value.1| < |input|
    decreases |input|
  {
    if input == [] then None
    else
      var byte := input[0];
      var sign := if 7 * k < 63 then 0xFF else 0x01;
      if 7 * k >= 32 && byte % 128 != 0 && (result < 0x8000_0000 || byte != sign) then None
      else
        var result' := if 7 * k >= 32 then result else result + byte % 128 * Power(128, k) % UINT32_LIMIT;
        if byte >= 128 then MoreVarint32(input[1..], k + 1, result')
        else if k == 4 && byte / 16 % 8 != 0 then None
        else Some((result', input[1..]))
  }

  /** pb_decode_varint32. */
  function DecodeVarint32(input: Bytes): (r: Option<(nat, Bytes)>)
    ensures r.Some? ==> |r.value.1| < |input|
  {
    if input == [] then None
    else if input[0] < 128 then Some((input[0], input[1..]))
    else MoreVarint32(input[1..], 1, input[0] % 128)
  }

  /** pb_make_string_substream: a length, and as many bytes. */
  function Substream(input: Bytes): (r: Option<(Bytes, Bytes)>)
    ensures r.Some? ==> |r.value.0| + |r.value.1| < |input|
  {
    match DecodeVarint32(input)
    case None => None
    case Some(p) => if p.0 <= |p.1| then Some((p.1[..p.0], p.1[p.0..])) else None
  }

  function Read(input: Bytes, n: nat): (r: Option<(Bytes, Bytes)>)
    ensures r.Some? ==> |r.value.0| == n && |r.value.1| + n == |input|
  {
    if n <= |input| then Some((input[..n], input[n..])) else None
  }

  /** pb_skip_varint. */
  function SkipVarint(input: Bytes): (r: Option<Bytes>)
    ensures r.Some? ==> |r.value| < |input|
  {
    if input == [] then None else if input[0] < 128 then Some(input[1..]) else SkipVarint(input[1..])
  }

  /** pb_skip_field. */
  function SkipField(wireType: nat, input: Bytes): (r: Option<Bytes>)
    ensures r.Some? ==> |r.value| <= |input|
  {
    if wireType == WT_VARINT then SkipVarint(input)
    else if wireType == WT_64BIT then (match Read(input, 8) case None => None case Some(p) => Some(p.1))
    else if wireType == WT_32BIT then (match Read(input, 4) case None => None case Some(p) => Some(p.1))
    else if wireType == WT_STRING then (match Substream(input) case None => None case Some(p) => Some(p.1))
    else None
  }

  /** A two's complement number of the given size. */
  function Signed(v: nat, bytes: nat): int {
    var w := Power(256, bytes);
    if w == 0 then 0 else if 2 * (v % w) < w then v % w else v % w - w
  }

  function CheckedSigned(size: nat, v: int): Option<int> {
    if SizeOk(size) && -(Power(256, size) as int) <= 2 * v < Power(256, size) then Some(v) else None
  }

  /** pb_dec_varint, pb_dec_uvarint and pb_dec_svarint: the decoded number has to fit the field. */
  function DecodeInt(kind: Kind, v: nat): Option<int> {
    match kind
    case Varint(size) => CheckedSigned(size, if size == 8 then Signed(v, 8) else Signed(v, 4))
    case UVarint(size) => if SizeOk(size) && v < Power(256, size) then Some(v) else None
    case SVarint(size) => CheckedSigned(size, UnZigZag(v))
    case _ => None
  }

  /** The decoders of values other than submessages. */
  function DecodeScalar(kind: Kind, input: Bytes): (r: Option<(Value, Bytes)>)
    requires !kind.SubMessage?
    ensures r.Some? ==> |r.value.1| < |input|
  {
    match kind
    case Fixed32 => (match Read(input, 4) case None => None case Some(p) => Some((Int(DecodeFixed(p.0)), p.1)))
    case Fixed64 => (match Read(input, 8) case None => None case Some(p) => Some((Int(DecodeFixed(p.0)), p.1)))
    case RawBytes(max) => DecodeString(input, n => n <= max)
    case Text(max) => DecodeString(input, n => n <= max)
    case FixedLengthBytes(n) =>
      (match DecodeVarint32(input)
       case None => None
       case Some(p) =>
         if p.0 == 0 then Some((Raw(Zeros(n)), p.1))
         else if p.0 != n then None
         else (match Read(p.1, n) case None => None case Some(q) => Some((Raw(q.0), q.1))))
    case _ =>
      (match GetVarint64(input)
       case None => None
       case Some(p) => (match DecodeInt(kind, p.0) case None => None case Some(i) => Some((Int(i), p.1))))
  }

  /** pb_dec_bytes and pb_dec_string: the size is checked before anything is read. */
  function DecodeString(input: Bytes, fits: nat -> bool): (r: Option<(Value, Bytes)>)
    ensures r.Some? ==> |r.value.1| < |input|
  {
    match DecodeVarint32(input)
    case None => None
    case Some(p) => if !fits(p.0) then None
                                       else (match Read(p.1,
                                                        p.0) case None => None case Some(q) => Some((Raw(q.0), q.1)))
  }

  /** A packed array: its values until the substream is used up. */
  function DecodePacked(kind: Kind, input: Bytes, values: seq<Value>, max: nat): Option<seq<Value>>
    requires Packable(kind)
    decreases |input|
  {
    if input == [] then Some(values)
    else if |values| >= max then None
    else
      match DecodeScalar(kind, input)
      case None => None
      case Some(p) => DecodePacked(kind, p.1, values + [p.0], max)
  }

  /** func(stream, field, pData), over what the struct holds. */
  function DecodeValue(kind: Kind, input: Bytes, current: Value): (r: Option<(Value, Bytes)>)
    ensures r.Some? ==> |r.value.1| < |input|
    decreases |input|, 0
  {
    if !kind.SubMessage? then DecodeScalar(kind, input)
    else
      match Substream(input)
      case None => None
      case Some(p) =>
        (match DecodeMessage(kind.message, p.0, if current.Message? then current.slots else [], {})
         case None => None
         case Some(slots) => Some((Message(slots), p.1)))
  }

  /** The other members of a union cease to be set. */
  function ClearUnion(schema: Schema, slots: seq<Slot>, rule: Rule): (r: seq<Slot>)
    requires |slots| == |schema.fields|
    ensures |r| == |slots|
  {
    seq(|slots|, k requires 0 <= k < |slots| =>
      if rule.OneOf? && schema.fields[k].rule == rule && slots[k].One? then slots[k].(has := false) else slots[k])
  }

  /** decode_static_field. */
  function DecodeField(schema: Schema, k: nat, wireType: nat, input: Bytes,
                       slots: seq<Slot>): (r: Option<(seq<Slot>, Bytes)>)
    requires k < |schema.fields| == |slots|
    ensures r.Some? ==> |r.value.1| < |input| && |r.value.0| == |slots|
    decreases |input|, 1
  {
    var field, s := schema.fields[k], slots[k];
    match field.rule
    case Repeated(max) =>
      var values := if s.Many? then s.values else [];
      if wireType == WT_STRING && Packable(field.kind) then
        match Substream(input)
        case None => None
        case Some(p) =>
          (match DecodePacked(field.kind, p.0, values, max)
           case None => None
           case Some(vs) => Some((slots[k := Many(vs)], p.1)))
      else if |values| >= max then None
      else
        (match DecodeValue(field.kind, input, DefaultValue(field.kind))
         case None => None
         case Some(p) => Some((slots[k := Many(values + [p.0])], p.1)))
    case _ =>
      var current := if s.One? && !field.rule.OneOf? then s.value else DefaultValue(field.kind);
      match DecodeValue(field.kind, input, current)
      case None => None
      case Some(p) => Some((ClearUnion(schema, slots, field.rule)[k := One(true, p.0)], p.1))
  }

  /** pb_decode_tag. */
  datatype Key = EndOfMessage | BadKey | Key(tag: nat, wireType: nat, rest: Bytes)

  function DecodeTag(input: Bytes): (r: Key)
    ensures r.Key? ==> |r.rest| < |input|
  {
    match DecodeVarint32(input)
    case None => if input == [] then EndOfMessage else BadKey
    case Some(p) => if p.0 == 0 then EndOfMessage else Key(p.0 / 8, p.0 % 8, p.1)
  }

  /** pb_field_iter_find. */
  function FieldIndex(schema: Schema, tag: nat, k: nat): (r: nat)
    requires k <= |schema.fields|
    ensures k <= r <= |schema.fields| && (r < |schema.fields| ==> schema.fields[r].tag == tag)
    ensures forall j :: k <= j < r ==> schema.fields[j].tag != tag
    decreases |schema.fields| - k
  {
    if k == |schema.fields| || schema.fields[k].tag == tag then k else FieldIndex(schema, tag, k + 1)
  }

  /** How many required fields come before field k. */
  function RequiredBefore(schema: Schema, k: nat): (r: nat)
    requires k <= |schema.fields|
    ensures r <= k
  {
    if k == 0 then 0 else RequiredBefore(schema, k - 1) + if schema.fields[k - 1].rule.Required? then 1 else 0
  }

  const MAX_REQUIRED_FIELDS := 64

  /** Every one of the first 64 required fields has been seen. */
  predicate RequiredSeen(schema: Schema, seen: set<nat>) {
    forall k ::
      0 <= k < |schema.fields| && schema.fields[k].rule.Required? && RequiredBefore(schema, k) < MAX_REQUIRED_FIELDS ==>
      k in seen
  }

  /** pb_decode_noinit: None is failure. seen: the fields whose tags have occurred. */
  function DecodeMessage(schema: Schema, input: Bytes, slots: seq<Slot>, seen: set<nat>): (r: Option<seq<Slot>>)
    decreases |input|, 2
  {
    if |slots| != |schema.fields| then None
    else
      match if input == [] then EndOfMessage else DecodeTag(input)
      case EndOfMessage => if RequiredSeen(schema, seen) then Some(slots) else None
      case BadKey => None
      case Key(tag, wireType, rest) =>
        var k := FieldIndex(schema, tag, 0);
        // Tag 0 matches the terminator of an empty message type, which no decoder accepts.
        if schema.fields == [] && tag == 0 then None
        else if k == |schema.fields| then
          match SkipField(wireType, rest)
          case None => None
          case Some(rest') => DecodeMessage(schema, rest', slots, seen)
        else
          match DecodeField(schema, k, wireType, rest, slots)
          case None => None
          case Some(p) => DecodeMessage(schema, p.1, p.0, seen + {k})
  }
}
