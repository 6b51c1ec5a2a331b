// The encoder: every submessage is encoded twice, first only to learn its size (nanopb: pb_encode.c).

module PbEncoding {
  import opened DbFormat
  import opened Coding
  import opened PbMessages

  /** pb_ostream_t. A sizing stream has no callback and only counts. out: what the callback was given. */
  datatype Stream = Stream(sizing: bool, out: Bytes, written: nat, max: nat)

  datatype Status = Ok | Error(message: string)

  const STREAM_FULL := Error("stream full")
  const SIZING := Stream(true, [], 0, 0)

  predicate Fits(s: Stream, n: nat) {
    s.sizing || s.written + n <= s.max
  }

  /** The stream after these bytes. */
  function Wrote(s: Stream, bytes: Bytes): Stream {
    s.(out := if s.sizing then s.out else s.out + bytes, written := s.written + |bytes|)
  }

  /** How an encoder has to end: with all the bytes written, or with the stream full because they do
      not fit. */
  ghost predicate Outcome(s: Stream, bytes: Bytes, t: Stream, status: Status) {
    if Fits(s, |bytes|) then status == Ok && t == Wrote(s, bytes) else status == STREAM_FULL
  }

  lemma WroteMore(s: Stream, a: Bytes, b: Bytes, t: Stream, status: Status)
    requires Fits(s, |a|) && Outcome(Wrote(s, a), b, t, status)
    ensures Outcome(s, a + b, t, status)
  {
    assert s.out + a + b == s.out + (a + b);
  }

  lemma NoRoom(s: Stream, a: Bytes, b: Bytes, t: Stream, status: Status)
    requires Outcome(s, a, t, status) && status != Ok
    ensures Outcome(s, a + b, t, status)
  {
  }

  method Write(s: Stream, buf: Bytes) returns (t: Stream, status: Status)
    ensures Outcome(s, buf, t, status)
  {
    if !s.sizing && s.written + |buf| > s.max {
      return s, STREAM_FULL;
    }
    t, status := Wrote(s, buf), Ok;
  }

  /** pb_encode_varint: ten bytes at most, written at once. */
  method WriteVarint(s: Stream, value: nat) returns (t: Stream, status: Status)
    requires Fits(s, 0)
    requires value < UINT64_LIMIT
    ensures Outcome(s, PutVarint(value), t, status)
  {
    if value <= 0x7F {
      assert PutVarint(value) == [value];
      t, status := Write(s, [value]);
      return;
    }
    var buffer: Bytes := [];
    var rest: nat := value;
    ghost var before: Bytes, digits: nat := [], value;
    while rest > 0
      invariant before + PutVarint(digits) == PutVarint(value)
      invariant if rest > 0 then before == buffer && digits == rest
                else digits < 128 && buffer == before + [digits + 128]
    {
      before, digits := buffer, rest;
      buffer := buffer + [rest % 128 + 128];
      rest := rest / 128;
      if rest > 0 {
        assert before + PutVarint(digits) == buffer + PutVarint(rest);
        before, digits := buffer, rest;
      }
    }
    buffer := buffer[|buffer| - 1 := buffer[|buffer| - 1] - 128];
    assert buffer == before + [digits];
    t, status := Write(s, buffer);
  }

  method WriteTag(s: Stream, wireType: nat, tag: nat) returns (t: Stream, status: Status)
    requires Fits(s, 0)
    requires 0 < tag < 0x2000_0000 && wireType < 8
    ensures Outcome(s, EncodeTag(wireType, tag), t, status)
  {
    t, status := WriteVarint(s, 8 * tag + wireType);
  }

  /** pb_encode_string. */
  method WriteString(s: Stream, b: Bytes) returns (t: Stream, status: Status)
    requires Fits(s, 0)
    requires |b| < UINT64_LIMIT
    ensures Outcome(s, PutLengthPrefixedSlice(b), t, status)
  {
    t, status := WriteVarint(s, |b|);
    if status != Ok {
      NoRoom(s, PutVarint(|b|), b, t, status);
      return;
    }
    var u;
    u, status := Write(t, b);
    WroteMore(s, PutVarint(|b|), b, u, status);
    t := u;
  }

  /** Fields of up to eight bytes hold 64-bit numbers. */
  lemma HalfRange(size: nat, i: int)
    requires SizeOk(size) && -(Power(256, size) as int) <= 2 * i < Power(256, size)
    ensures -0x8000_0000_0000_0000 <= i < 0x8000_0000_0000_0000
  {
    FixedWidths();
    assert Power(256, 1) == 256;
  }

  /** func(stream, field, pData) for all but submessages. */
  method WriteScalar(s: Stream, kind: Kind, v: Value) returns (t: Stream, status: Status)
    requires Fits(s, 0)
    requires !kind.SubMessage? && InRange(kind, v) && KindGood(kind)
    ensures Outcome(s, EncodeValue(kind, v), t, status)
  {
    match kind {
      case Varint(_) => t, status := WriteVarint(s, Unsigned64(v.i));
      case UVarint(_) => t, status := WriteVarint(s, Unsigned64(v.i));
      case SVarint(size) =>
        HalfRange(size, v.i);
        ZigZagRoundTrip(v.i);
        t, status := WriteVarint(s, ZigZag(v.i));
      case Fixed32 => t, status := Write(s, PutFixed(Unsigned64(v.i), 4));
      case Fixed64 => t, status := Write(s, PutFixed(Unsigned64(v.i), 8));
      case RawBytes(_) => t, status := WriteString(s, v.b);
      case Text(_) => t, status := WriteString(s, v.b);
      case FixedLengthBytes(_) => t, status := WriteString(s, v.b);
    }
  }

  lemma {:induction false} PackedPrefix(kind: Kind, values: seq<Value>, k: nat)
    requires k <= |values|
    ensures |EncodePacked(kind, values[..k])| <= |EncodePacked(kind, values)|
    decreases |values|
  {
    if k < |values| {
      PackedPrefix(kind, values[..|values| - 1], k);
      assert values[..|values| - 1][..k] == values[..k];
    } else {
      assert values[..k] == values;
    }
  }

  lemma PackedNext(kind: Kind, values: seq<Value>, k: nat)
    requires k < |values|
    ensures EncodePacked(kind, values[..k + 1]) == EncodePacked(kind, values[..k]) + EncodeValue(kind, values[k])
  {
    assert values[..k + 1][..k] == values[..k];
  }

  /** The values of a packed array, to the stream or only counted. */
  method WritePacked(s: Stream, kind: Kind, values: seq<Value>) returns (t: Stream, status: Status)
    requires Fits(s, 0)
    requires Packable(kind) && KindGood(kind) && forall i :: 0 <= i < |values| ==> InRange(kind, values[i])
    ensures Outcome(s, EncodePacked(kind, values), t, status)
  {
    t, status := s, Ok;
    var k: nat := 0;
    assert s.out + [] == s.out && values[..0] == [];
    while k < |values|
      invariant k <= |values| && status == Ok && Fits(s, |EncodePacked(kind, values[..k])|)
        && t == Wrote(s, EncodePacked(kind, values[..k]))
    {
      var u;
      u, status := WriteScalar(t, kind, values[k]);
      PackedNext(kind, values, k);
      WroteMore(s, EncodePacked(kind, values[..k]), EncodeValue(kind, values[k]), u, status);
      if status != Ok {
        PackedPrefix(kind, values, k + 1);
        return u, status;
      }
      t, k := u, k + 1;
    }
    assert values[..k] == values;
  }

  /** The total size of a packed array: counted, unless every value takes as much. */
  method PackedSize(kind: Kind, values: seq<Value>) returns (size: nat)
    requires Packable(kind) && KindGood(kind) && forall i :: 0 <= i < |values| ==> InRange(kind, values[i])
    ensures size == |EncodePacked(kind, values)|
  {
    if kind.Fixed32? {
      FixedPacked(kind, values, 4);
      return 4 * |values|;
    } else if kind.Fixed64? {
      FixedPacked(kind, values, 8);
      return 8 * |values|;
    }
    var s, status := WritePacked(SIZING, kind, values);
    size := s.written;
  }

  lemma {:induction false} FixedPacked(kind: Kind, values: seq<Value>, width: nat)
    requires (kind.Fixed32? && width == 4) || (kind.Fixed64? && width == 8)
    requires forall i :: 0 <= i < |values| ==> InRange(kind, values[i])
    ensures |EncodePacked(kind, values)| == width * |values|
    decreases |values|
  {
    if values != [] {
      FixedPacked(kind, values[..|values| - 1], width);
    }
  }

  /** encode_array, for types that are packed. */
  method WritePackedArray(s: Stream, field: Field, values: seq<Value>) returns (t: Stream, status: Status)
    requires Fits(s, 0) && FieldGood(field) && Packable(field.kind) && values != [] && SlotInRange(field, Many(values))
      && field.rule.Repeated?
    ensures Outcome(s, EncodeField(field, Many(values)), t, status)
  {
    ghost var tag, packed := EncodeTag(WT_STRING, field.tag), EncodePacked(field.kind, values);
    ghost var prefix := PutVarint(|packed|);
    t, status := WriteTag(s, WT_STRING, field.tag);
    if status != Ok {
      NoRoom(s, tag, prefix + packed, t, status);
      return;
    }
    var size := PackedSize(field.kind, values);
    var u;
    u, status := WriteVarint(t, size);
    WroteMore(s, tag, prefix, u, status);
    assert tag + prefix + packed == tag + (prefix + packed);
    if status != Ok {
      NoRoom(s, tag + prefix, packed, u, status);
      return u, status;
    }
    if u.sizing {
      t := u.(written := u.written + size);
    } else {
      t, status := WritePacked(u, field.kind, values);
    }
    WroteMore(s, tag + prefix, packed, t, status);
  }

  ghost predicate FieldGood(field: Field) {
    0 < field.tag < 0x2000_0000 && KindGood(field.kind)
  }

  lemma {:induction false} ItemsPrefix(field: Field, values: seq<Value>, k: nat)
    requires k <= |values|
    ensures |EncodeItems(field, values[..k])| <= |EncodeItems(field, values)|
    decreases |values|
  {
    if k < |values| {
      ItemsPrefix(field, values[..|values| - 1], k);
      assert values[..|values| - 1][..k] == values[..k];
    } else {
      assert values[..k] == values;
    }
  }

  function EncodeItem(field: Field, v: Value): Bytes {
    EncodeTag(WireType(field.kind), field.tag) + EncodeValue(field.kind, v)
  }

  lemma ItemsNext(field: Field, values: seq<Value>, k: nat)
    requires k < |values|
    ensures EncodeItems(field, values[..k + 1]) == EncodeItems(field, values[..k]) + EncodeItem(field, values[k])
  {
    assert values[..k + 1][..k] == values[..k];
  }

  lemma {:induction false} MessagePrefix(schema: Schema, slots: seq<Slot>, k: nat, n: nat)
    requires k <= n <= |slots| == |schema.fields|
    ensures |EncodeMessage(schema, slots, k)| <= |EncodeMessage(schema, slots, n)|
    decreases n
  {
    if k < n {
      MessagePrefix(schema, slots, k, n - 1);
    }
  }

  method WriteValue(s: Stream, kind: Kind, v: Value) returns (t: Stream, status: Status)
    requires Fits(s, 0) && KindGood(kind) && InRange(kind, v)
    ensures Outcome(s, EncodeValue(kind, v), t, status)
    decreases kind, 0
  {
    if kind.SubMessage? {
      t, status := WriteSubMessage(s, kind.message, v.slots);
    } else {
      t, status := WriteScalar(s, kind, v);
    }
  }

  /** pb_encode_submessage: a sizing pass, the size, and then a second pass into a stream that is
      exactly as large; a message whose size has changed in between would be an error. */
  method WriteSubMessage(s: Stream, schema: Schema, slots: seq<Slot>) returns (t: Stream, status: Status)
    requires Fits(s, 0) && SchemaGood(schema) && MessageInRange(schema, slots)
      && |EncodeMessage(schema, slots, |slots|)| < UINT32_LIMIT
    ensures Outcome(s, PutLengthPrefixedSlice(EncodeMessage(schema, slots, |slots|)), t, status)
    decreases schema, 4
  {
    ghost var bytes := EncodeMessage(schema, slots, |slots|);
    var sub, sizing := WriteMessage(SIZING, schema, slots);
    var size := sub.written;
    t, status := WriteVarint(s, size);
    if status != Ok {
      NoRoom(s, PutVarint(|bytes|), bytes, t, status);
      return;
    }
    var u := t;
    if t.sizing {
      u := t.(written := t.written + size);
    } else if t.written + size > t.max {
      status := STREAM_FULL;
    } else {
      sub, status := WriteMessage(Stream(false, t.out, 0, size), schema, slots);
      u := t.(out := sub.out, written := t.written + sub.written);
      if sub.written != size {
        status := Error("submsg size changed");
      }
    }
    WroteMore(s, PutVarint(|bytes|), bytes, u, status);
    t := u;
  }

  method WriteItem(s: Stream, field: Field, v: Value) returns (t: Stream, status: Status)
    requires Fits(s, 0) && FieldGood(field) && InRange(field.kind, v)
    ensures Outcome(s, EncodeItem(field, v), t, status)
    decreases field.kind, 1
  {
    ghost var tag, value := EncodeTag(WireType(field.kind), field.tag), EncodeValue(field.kind, v);
    t, status := WriteTag(s, WireType(field.kind), field.tag);
    if status != Ok {
      NoRoom(s, tag, value, t, status);
      return;
    }
    var u;
    u, status := WriteValue(t, field.kind, v);
    WroteMore(s, tag, value, u, status);
    t := u;
  }

  /** encode_array, for types that cannot be packed. */
  method WriteItems(s: Stream, field: Field, values: seq<Value>) returns (t: Stream, status: Status)
    requires Fits(s, 0) && FieldGood(field) && forall i :: 0 <= i < |values| ==> InRange(field.kind, values[i])
    ensures Outcome(s, EncodeItems(field, values), t, status)
    decreases field.kind, 2
  {
    t, status := s, Ok;
    var k: nat := 0;
    assert s.out + [] == s.out && values[..0] == [];
    while k < |values|
      invariant k <= |values| && status == Ok && Fits(s, |EncodeItems(field, values[..k])|)
        && t == Wrote(s, EncodeItems(field, values[..k]))
    {
      var u;
      u, status := WriteItem(t, field, values[k]);
      ItemsNext(field, values, k);
      WroteMore(s, EncodeItems(field, values[..k]), EncodeItem(field, values[k]), u, status);
      if status != Ok {
        ItemsPrefix(field, values, k + 1);
        return u, status;
      }
      t, k := u, k + 1;
    }
    assert values[..k] == values;
  }

  /** encode_basic_field. */
  method WriteField(s: Stream, field: Field, slot: Slot) returns (t: Stream, status: Status)
    requires Fits(s, 0) && FieldGood(field) && SlotInRange(field, slot)
    ensures Outcome(s, EncodeField(field, slot), t, status)
    decreases field.kind, 3
  {
    if slot.Many? && slot.values != [] {
      if Packable(field.kind) {
        t, status := WritePackedArray(s, field, slot.values);
      } else {
        t, status := WriteItems(s, field, slot.values);
      }
    } else if slot.One? && Present(field, slot) {
      t, status := WriteItem(s, field, slot.value);
    } else {
      assert s.out + [] == s.out;
      t, status := s, Ok;
    }
  }

  lemma PartsInRange(schema: Schema, slots: seq<Slot>)
    requires SchemaGood(schema) && MessageInRange(schema, slots)
    ensures |slots| == |schema.fields|
    ensures forall k :: 0 <= k < |slots| ==> FieldGood(schema.fields[k]) && SlotInRange(schema.fields[k], slots[k])
  {
  }

  lemma EncodedNext(schema: Schema, slots: seq<Slot>, k: nat)
    requires k < |slots| == |schema.fields|
    ensures EncodeMessage(schema, slots, k + 1)
      == EncodeMessage(schema, slots, k) + EncodeField(schema.fields[k], slots[k])
    ensures |EncodeMessage(schema, slots, k + 1)| <= |EncodeMessage(schema, slots, |slots|)|
  {
    MessagePrefix(schema, slots, k + 1, |slots|);
  }

  /** pb_encode: every field in turn. */
  method WriteMessage(s: Stream, schema: Schema, slots: seq<Slot>) returns (t: Stream, status: Status)
    requires Fits(s, 0) && SchemaGood(schema) && MessageInRange(schema, slots)
    ensures Outcome(s, EncodeMessage(schema, slots, |slots|), t, status)
    decreases schema, 3
  {
    t, status := s, Ok;
    var k: nat := 0;
    assert s.out + [] == s.out;
    PartsInRange(schema, slots);
    while k < |slots|
      invariant k <= |slots| && status == Ok
      invariant Fits(s, |EncodeMessage(schema, slots, k)|) && t == Wrote(s, EncodeMessage(schema, slots, k))
    {
      EncodedNext(schema, slots, k);
      var u;
      u, status := WriteField(t, schema.fields[k], slots[k]);
      WroteMore(s, EncodeMessage(schema, slots, k), EncodeField(schema.fields[k], slots[k]), u, status);
      if status != Ok {
        return u, status;
      }
      t, k := u, k + 1;
    }
  }
}
