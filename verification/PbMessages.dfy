// Messages, schemas and their wire form (nanopb: pb.h, pb_encode.c; the sections "Base 128 Varints"
// and "Message Structure" of the Protocol Buffers Encoding specification).

module PbMessages {
  import opened DbFormat
  import opened Coding

  /** The types of static fields. Sizes of integers are in bytes; those of strings and byte arrays
      are what fits into the struct. */
  datatype Kind =
    | Varint(size: nat)
    | UVarint(size: nat)
    | SVarint(size: nat)
    | Fixed32
    | Fixed64
    | RawBytes(max: nat)
    | Text(max: nat)
    | FixedLengthBytes(length: nat)
    | SubMessage(message: Schema)

  /** Singular: an optional field of proto3, without a has_ flag. */
  datatype Rule = Required | Optional | Singular | Repeated(arraySize: nat) | OneOf(union: nat)

  datatype Field = Field(tag: nat, rule: Rule, kind: Kind)

  datatype Schema = Schema(fields: seq<Field>)

  datatype Value = Int(i: int) | Raw(b: Bytes) | Message(slots: seq<Slot>)

  /** The members of a struct for one field. */
  datatype Slot = One(has: bool, value: Value) | Many(values: seq<Value>)

  const WT_VARINT := 0
  const WT_64BIT := 1
  const WT_STRING := 2
  const WT_32BIT := 5

  function WireType(kind: Kind): nat {
    match kind
    case Varint(_) => WT_VARINT
    case UVarint(_) => WT_VARINT
    case SVarint(_) => WT_VARINT
    case Fixed32 => WT_32BIT
    case Fixed64 => WT_64BIT
    case _ => WT_STRING
  }

  predicate Packable(kind: Kind) {
    kind.Varint? || kind.UVarint? || kind.SVarint? || kind.Fixed32? || kind.Fixed64?
  }

  predicate SizeOk(size: nat) {
    size == 1 || size == 2 || size == 4 || size == 8
  }

  /** Tags fit a 32-bit key with its wire type, and identify fields. */
  ghost predicate SchemaGood(schema: Schema)
    decreases schema, 1
  {
    && (forall k :: 0 <= k < |schema.fields| ==> 0 < schema.fields[k].tag < 0x2000_0000)
    && (forall j, k :: 0 <= j < k < |schema.fields| ==> schema.fields[j].tag != schema.fields[k].tag)
    && forall k :: 0 <= k < |schema.fields| ==> KindGood(schema.fields[k].kind)
  }

  ghost predicate KindGood(kind: Kind)
    decreases kind, 0
  {
    match kind
    case Varint(s) => SizeOk(s)
    case UVarint(s) => SizeOk(s)
    case SVarint(s) => SizeOk(s)
    case SubMessage(m) => SchemaGood(m)
    case _ => true
  }

  function Zeros(n: nat): Bytes {
    seq(n, _ => 0)
  }

  /** pb_message_set_to_defaults, with no default values of its own in the schema. */
  function DefaultValue(kind: Kind): Value
    decreases kind, 0
  {
    match kind
    case RawBytes(_) => Raw([])
    case Text(_) => Raw([])
    case FixedLengthBytes(n) => Raw(Zeros(n))
    case SubMessage(m) => Message(Defaults(m))
    case _ => Int(0)
  }

  function DefaultSlot(field: Field): Slot
    decreases field.kind, 1
  {
    match field.rule
    case Repeated(_) => Many([])
    case Required => One(true, DefaultValue(field.kind))
    case Singular => One(true, DefaultValue(field.kind))
    case _ => One(false, DefaultValue(field.kind))
  }

  function Defaults(schema: Schema): (r: seq<Slot>)
    ensures |r| == |schema.fields|
    decreases schema, 2
  {
    seq(|schema.fields|, k requires 0 <= k < |schema.fields| => DefaultSlot(schema.fields[k]))
  }

  function Unsigned64(i: int): nat {
    i % UINT64_LIMIT
  }

  /** pb_encode_svarint: the sign goes to the lowest bit. */
  function ZigZag(i: int): nat {
    if i < 0 then -2 * i - 1 else 2 * i
  }

  function UnZigZag(z: nat): int {
    if z % 2 == 1 then -(z / 2) - 1 else z / 2
  }

  lemma ZigZagRoundTrip(i: int)
    ensures UnZigZag(ZigZag(i)) == i
    ensures -0x8000_0000_0000_0000 <= i < 0x8000_0000_0000_0000 ==> ZigZag(i) < UINT64_LIMIT
  {
  }

  function EncodeTag(wireType: nat, tag: nat): Bytes {
    PutVarint(8 * tag + wireType)
  }

  function EncodeValue(kind: Kind, v: Value): Bytes
    decreases kind, 0, 0
  {
    match kind
    case Varint(_) => if v.Int? then PutVarint(Unsigned64(v.i)) else []
    case UVarint(_) => if v.Int? then PutVarint(Unsigned64(v.i)) else []
    case SVarint(_) => if v.Int? then PutVarint(ZigZag(v.i)) else []
    case Fixed32 => if v.Int? then PutFixed(Unsigned64(v.i), 4) else []
    case Fixed64 => if v.Int? then PutFixed(Unsigned64(v.i), 8) else []
    case SubMessage(m) =>
      if v.Message? && |v.slots| == |m.fields| then
        PutLengthPrefixedSlice(EncodeMessage(m, v.slots, |m.fields|))
      else []
    case _ => if v.Raw? then PutLengthPrefixedSlice(v.b) else []
  }

  /** The values one after the other, without tags. */
  function EncodePacked(kind: Kind, values: seq<Value>): Bytes
    decreases kind, 1, |values|
  {
    if values == [] then [] else EncodePacked(kind, values[..|values| - 1]) + EncodeValue(kind, values[|values| - 1])
  }

  function EncodeItems(field: Field, values: seq<Value>): Bytes
    decreases field.kind, 1, |values|
  {
    if values == [] then []
    else
      EncodeItems(field, values[..|values| - 1])
      + (EncodeTag(WireType(field.kind), field.tag) + EncodeValue(field.kind, values[|values| - 1]))
  }

  /** Whether the encoder writes a field that can be absent. */
  predicate Present(field: Field, s: Slot) {
    match field.rule
    case Required => true
    case Singular => s.One? && !IsZero(field.kind, s.value)
    case _ => s.One? && s.has
  }

  /** pb_check_proto3_default_value. */
  predicate IsZero(kind: Kind, v: Value)
    decreases kind, 0
  {
    match kind
    case RawBytes(_) => v == Raw([])
    case Text(_) => v == Raw([])
    case FixedLengthBytes(n) => n == 0
    case SubMessage(m) => v.Message? && forall k :: 0 <= k < |m.fields| && k < |v.slots| ==>
      SlotIsZero(m.fields[k], v.slots[k])
    case _ => v == Int(0)
  }

  predicate SlotIsZero(field: Field, s: Slot)
    decreases field.kind, 1
  {
    match field.rule
    case Required => false
    case Repeated(_) => s == Many([])
    case Singular => s.One? && IsZero(field.kind, s.value)
    case _ => s.One? && !s.has
  }

  function EncodeField(field: Field, s: Slot): Bytes
    decreases field.kind, 2, 0
  {
    match s
    case One(_, v) => if Present(field, s) then EncodeTag(WireType(field.kind), field.tag) + EncodeValue(field.kind, v)
                                                else []
    case Many(values) =>
      if values == [] then []
      else if Packable(field.kind) then EncodeTag(WT_STRING,
                                                  field.tag) + PutLengthPrefixedSlice(EncodePacked(field.kind, values))
      else EncodeItems(field, values)
  }

  /** The first n fields. */
  function EncodeMessage(schema: Schema, slots: seq<Slot>, n: nat): Bytes
    requires n <= |slots| == |schema.fields|
    decreases schema, 3, n
  {
    if n == 0 then [] else EncodeMessage(schema, slots, n - 1) + EncodeField(schema.fields[n - 1], slots[n - 1])
  }

  /** A value its field can hold and the decoder accepts. */
  ghost predicate InRange(kind: Kind, v: Value)
    decreases kind, 0
  {
    match kind
    case Varint(s) => v.Int? && -(Power(256, s) as int) <= 2 * v.i < Power(256, s)
    case UVarint(s) => v.Int? && 0 <= v.i < Power(256, s)
    case SVarint(s) => v.Int? && -(Power(256, s) as int) <= 2 * v.i < Power(256, s)
    case Fixed32 => v.Int? && 0 <= v.i < UINT32_LIMIT
    case Fixed64 => v.Int? && 0 <= v.i < UINT64_LIMIT
    case RawBytes(max) => v.Raw? && |v.b| <= max && |v.b| < UINT32_LIMIT
    case Text(max) => v.Raw? && |v.b| <= max && |v.b| < UINT32_LIMIT && 0 !in v.b
    case FixedLengthBytes(n) => v.Raw? && |v.b| == n && n < UINT32_LIMIT
    case SubMessage(m) => v.Message? && MessageInRange(m, v.slots)
                          && |EncodeMessage(m, v.slots, |v.slots|)| < UINT32_LIMIT
  }

  ghost predicate SlotInRange(field: Field, s: Slot)
    decreases field.kind, 1
  {
    match field.rule
    case Repeated(n) =>
      && s.Many? && |s.values| <= n && (forall i :: 0 <= i < |s.values| ==> InRange(field.kind, s.values[i]))
      && (Packable(field.kind) ==> |EncodePacked(field.kind, s.values)| < UINT32_LIMIT)
    case Required => s.One? && s.has && InRange(field.kind, s.value)
    case Singular => s.One? && s.has && InRange(field.kind, s.value)
    case _ => s.One? && (s.has ==> InRange(field.kind, s.value))
  }

  /** At most one field of a union is set. */
  ghost predicate UnionsGood(schema: Schema, slots: seq<Slot>)
    requires |slots| == |schema.fields|
  {
    forall j, k :: 0 <= j < k < |slots| && schema.fields[j].rule.OneOf?
                   && schema.fields[j].rule == schema.fields[k].rule ==>
      !(slots[j].One? && slots[j].has && slots[k].One? && slots[k].has)
  }

  ghost predicate MessageInRange(schema: Schema, slots: seq<Slot>)
    decreases schema, 2
  {
    && |slots| == |schema.fields| && UnionsGood(schema, slots)
    && forall k :: 0 <= k < |slots| ==> SlotInRange(schema.fields[k], slots[k])
  }

  /** Equal but for the contents of absent fields. */
  ghost predicate Same(kind: Kind, a: Value, b: Value)
    decreases kind, 0
  {
    match kind
    case SubMessage(m) => a.Message? && b.Message? && SameMessage(m, a.slots, b.slots)
    case _ => a == b
  }

  ghost predicate SameSlot(field: Field, a: Slot, b: Slot)
    decreases field.kind, 1
  {
    match field.rule
    case Repeated(_) =>
      a.Many? && b.Many? && |a.values| == |b.values|
        && forall i :: 0 <= i < |a.values| ==> Same(field.kind, a.values[i], b.values[i])
    case _ => a.One? && b.One? && a.has == b.has && (a.has ==> Same(field.kind, a.value, b.value))
  }

  ghost predicate SameMessage(schema: Schema, a: seq<Slot>, b: seq<Slot>)
    decreases schema, 2
  {
    |a| == |b| == |schema.fields| && forall k :: 0 <= k < |a| ==> SameSlot(schema.fields[k], a[k], b[k])
  }
}
