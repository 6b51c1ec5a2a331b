// Decoding what was encoded gives it back (nanopb: pb_encode.c and pb_decode.c together).

module PbRoundTrip {
  import opened DbFormat
  import opened Coding
  import opened PbMessages
  import opened PbDecoding

  lemma Powers(k: nat)
    requires 1 <= k <= 4
    ensures Power(128, k) == if k == 1 then 128 else if k == 2 then 16384 else if k == 3 then 2097152 else 268435456
    ensures k < 4 ==> Power(128, k + 1) == 128 * Power(128, k)
  {
    assert Power(128, 1) == 128;
    assert Power(128, 2) == 16384;
    assert Power(128, 3) == 2097152;
    assert Power(128, 4) == 268435456;
  }

  /** One more byte of a varint that stays below 32 bits. */
  lemma OneDigit(input: Bytes, k: nat, result: nat, p: nat, digit: nat)
    requires input != [] && 1 <= k <= 4 && p == Power(128, k) && digit < 128 && input[0] % 128 == digit
      && result + digit * p < UINT32_LIMIT
    ensures MoreVarint32(input, k, result) ==
            if input[0] >= 128 then MoreVarint32(input[1..], k + 1, result + digit * p)
                                    else Some((result + digit * p, input[1..]))
  {
    Powers(k);
    assert digit * p % UINT32_LIMIT == digit * p;
    assert k == 4 ==> digit < 16;
  }

  /** The digits that are left, on top of those already read. */
  lemma {:induction false} MoreDigits(w: nat, rest: Bytes, k: nat, result: nat, p: nat)
    requires 1 <= k <= 4 && p == Power(128, k) && result < p && result + w * p < UINT32_LIMIT
    ensures MoreVarint32(PutVarint(w) + rest, k, result) == Some((result + w * p, rest))
    decreases w
  {
    var input := PutVarint(w) + rest;
    if w < 128 {
      assert input == [w] + rest && input[1..] == rest;
      OneDigit(input, k, result, p, w);
    } else {
      Powers(k);
      assert input[0] == w % 128 + 128 && input[1..] == PutVarint(w / 128) + rest;
      SplitDigit(w, w % 128, w / 128, p);
      OneDigit(input, k, result, p, w % 128);
      MoreDigits(w / 128, rest, k + 1, result + w % 128 * p, 128 * p);
    }
  }

  lemma SplitDigit(w: nat, low: nat, high: nat, p: nat)
    requires w == low + 128 * high && p > 0
    ensures w * p == low * p + high * (128 * p) && low * p <= w * p
    ensures low < 128 ==> low * p <= 127 * p
  {
  }

  lemma Varint32RoundTrip(v: nat, rest: Bytes)
    requires v < UINT32_LIMIT
    ensures DecodeVarint32(PutVarint(v) + rest) == Some((v, rest))
  {
    var input := PutVarint(v) + rest;
    if v < 128 {
      assert input == [v] + rest && input[1..] == rest;
    } else {
      Powers(1);
      assert input[0] == v % 128 + 128 && input[1..] == PutVarint(v / 128) + rest;
      MoreDigits(v / 128, rest, 1, v % 128, 128);
    }
  }

  lemma SubstreamRoundTrip(b: Bytes, rest: Bytes)
    requires |b| < UINT32_LIMIT
    ensures DecodeVarint32(PutLengthPrefixedSlice(b) + rest) == Some((|b|, b + rest))
    ensures Substream(PutLengthPrefixedSlice(b) + rest) == Some((b, rest)) && Read(b + rest, |b|) == Some((b, rest))
  {
    Associates(PutVarint(|b|), b, rest);
    Varint32RoundTrip(|b|, b + rest);
    assert (b + rest)[..|b|] == b && (b + rest)[|b|..] == rest;
  }

  lemma TagRoundTrip(wireType: nat, tag: nat, rest: Bytes)
    requires 0 < tag < 0x2000_0000 && wireType < 8
    ensures EncodeTag(wireType, tag) + rest != []
      && DecodeTag(EncodeTag(wireType, tag) + rest) == Key(tag, wireType, rest)
  {
    Varint32RoundTrip(8 * tag + wireType, rest);
  }

  lemma Sizes()
    ensures Power(256, 1) == 0x100 && Power(256, 2) == 0x1_0000 && Power(256, 4) == UINT32_LIMIT
      && Power(256, 8) == UINT64_LIMIT
  {
    FixedWidths();
    assert Power(256, 1) == 256;
  }

  lemma SignedRoundTrip(i: int)
    ensures -0x8000_0000 <= i < 0x8000_0000 ==> Signed(Unsigned64(i), 4) == i
    ensures -0x8000_0000_0000_0000 <= i < 0x8000_0000_0000_0000 ==> Signed(Unsigned64(i), 8) == i
  {
    Sizes();
  }

  lemma InHalfRange(size: nat, i: int)
    requires SizeOk(size) && -(Power(256, size) as int) <= 2 * i < Power(256, size)
    ensures -0x8000_0000_0000_0000 <= i < 0x8000_0000_0000_0000
    ensures size != 8 ==> -0x8000_0000 <= i < 0x8000_0000
  {
    Sizes();
  }

  /** The number that goes through the varint. */
  function Encoded(kind: Kind, i: int): nat {
    if kind.SVarint? then ZigZag(i) else Unsigned64(i)
  }

  /** What the encoder makes of an integer in range the decoder turns back. */
  lemma IntRoundTrip(kind: Kind, i: int)
    requires KindGood(kind) && InRange(kind, Int(i)) && (kind.Varint? || kind.UVarint? || kind.SVarint?)
    ensures Encoded(kind, i) < UINT64_LIMIT && DecodeInt(kind, Encoded(kind, i)) == Some(i)
  {
    match kind
    case Varint(size) =>
      InHalfRange(size, i);
      SignedRoundTrip(i);
    case UVarint(size) => Sizes();
    case SVarint(size) =>
      InHalfRange(size, i);
      ZigZagRoundTrip(i);
  }

  lemma FixedValueRoundTrip(v: nat, bytes: nat, rest: Bytes)
    requires (bytes == 4 && v < UINT32_LIMIT) || (bytes == 8 && v < UINT64_LIMIT)
    ensures Read(PutFixed(v, bytes) + rest, bytes) == Some((PutFixed(v, bytes), rest))
      && DecodeFixed(PutFixed(v, bytes)) == v
  {
    FixedWidths();
    FixedRoundTrip(v, bytes);
    ReadFront(PutFixed(v, bytes), rest);
  }

  lemma FixedKindRoundTrip(kind: Kind, v: Value, rest: Bytes, width: nat)
    requires InRange(kind, v) && ((kind.Fixed32? && width == 4) || (kind.Fixed64? && width == 8))
    ensures DecodeScalar(kind, EncodeValue(kind, v) + rest) == Some((v, rest))
  {
    FixedValueRoundTrip(v.i, width, rest);
    assert Unsigned64(v.i) == v.i;
  }

  lemma ScalarRoundTrip(kind: Kind, v: Value, rest: Bytes)
    requires !kind.SubMessage? && KindGood(kind) && InRange(kind, v)
    ensures DecodeScalar(kind, EncodeValue(kind, v) + rest) == Some((v, rest))
  {
    if kind.Fixed32? || kind.Fixed64? {
      FixedKindRoundTrip(kind, v, rest, if kind.Fixed32? then 4 else 8);
    } else if kind.RawBytes? || kind.Text? || kind.FixedLengthBytes? {
      BytesRoundTrip(kind, v, rest);
    } else {
      IntRoundTrip(kind, v.i);
      VarintRoundTrip(Encoded(kind, v.i), rest);
      assert EncodeValue(kind, v) == PutVarint(Encoded(kind, v.i));
    }
  }

  lemma BytesRoundTrip(kind: Kind, v: Value, rest: Bytes)
    requires (kind.RawBytes? || kind.Text? || kind.FixedLengthBytes?) && InRange(kind, v)
    ensures DecodeScalar(kind, EncodeValue(kind, v) + rest) == Some((v, rest))
  {
    SubstreamRoundTrip(v.b, rest);
    assert |v.b| == 0 ==> v.b == Zeros(0) && v.b + rest == rest;
  }

  lemma ReadFront(b: Bytes, rest: Bytes)
    ensures Read(b + rest, |b|) == Some((b, rest))
  {
    assert (b + rest)[..|b|] == b && (b + rest)[|b|..] == rest;
  }

  lemma BothEndsOff<T>(values: seq<T>)
    requires |values| > 1
    ensures var n := |values| - 1;
            && values[..n][0] == values[0] && values[1..][n - 1] == values[n] && |values[1..]| == n == |values[..n]|
            && values[..n][1..] == values[1..][..n - 1]
  {
  }

  lemma {:induction false} PackedCons(kind: Kind, values: seq<Value>)
    requires values != []
    ensures EncodePacked(kind, values) == EncodeValue(kind, values[0]) + EncodePacked(kind, values[1..])
    decreases |values|
  {
    var n := |values| - 1;
    if n == 0 {
      assert EncodePacked(kind, values[..0]) == [] && EncodePacked(kind, values[1..]) == [];
    } else {
      PackedCons(kind, values[..n]);
      BothEndsOff(values);
      Associates(EncodeValue(kind, values[0]), EncodePacked(kind, values[1..][..n - 1]), EncodeValue(kind, values[n]));
    }
  }

  lemma OneMoved<T>(done: seq<T>, values: seq<T>)
    requires values != []
    ensures done + [values[0]] + values[1..] == done + values
  {
  }

  lemma {:induction false} PackedRoundTrip(kind: Kind, values: seq<Value>, done: seq<Value>, max: nat)
    requires Packable(kind) && KindGood(kind) && |done| + |values| <= max
      && forall i :: 0 <= i < |values| ==> InRange(kind, values[i])
    ensures DecodePacked(kind, EncodePacked(kind, values), done, max) == Some(done + values)
    decreases |values|
  {
    if values == [] {
      assert done + values == done;
    } else {
      PackedCons(kind, values);
      ScalarRoundTrip(kind, values[0], EncodePacked(kind, values[1..]));
      PackedRoundTrip(kind, values[1..], done + [values[0]], max);
      OneMoved(done, values);
    }
  }

  /** What the encoder takes for absent decodes to the default, which is the same. */
  lemma {:induction false} ZeroIsDefault(kind: Kind, v: Value)
    requires IsZero(kind, v) && InRange(kind, v)
    ensures Same(kind, v, DefaultValue(kind))
    decreases kind, 0
  {
    match kind
    case SubMessage(m) =>
      forall k | 0 <= k < |m.fields| ensures SameSlot(m.fields[k], v.slots[k], Defaults(m)[k]) {
        ZeroSlotIsDefault(m.fields[k], v.slots[k]);
      }
    case _ =>
  }

  lemma {:induction false} ZeroSlotIsDefault(field: Field, s: Slot)
    requires SlotIsZero(field, s) && SlotInRange(field, s)
    ensures SameSlot(field, s, DefaultSlot(field))
    decreases field.kind, 1
  {
    match field.rule
    case Singular => ZeroIsDefault(field.kind, s.value);
    case _ =>
  }

  /** A field of which nothing is written decodes to its default. */
  lemma AbsentIsDefault(field: Field, s: Slot)
    requires SlotInRange(field, s) && (s.One? ==> !Present(field, s)) && (s.Many? ==> s.values == [])
    ensures SameSlot(field, s, DefaultSlot(field))
  {
    match field.rule
    case Singular => ZeroIsDefault(field.kind, s.value);
    case _ =>
  }

  lemma AbsentIsSkipped(field: Field, s: Slot, rest: Bytes)
    requires SlotInRange(field, s) && (s.One? ==> !Present(field, s)) && (s.Many? ==> s.values == [])
    ensures EncodeField(field, s) + rest == rest
  {
  }

  /** The fields from k on. */
  function EncodeFrom(schema: Schema, slots: seq<Slot>, k: nat): Bytes
    requires k <= |slots| == |schema.fields|
    decreases |slots| - k
  {
    if k == |slots| then [] else EncodeField(schema.fields[k], slots[k]) + EncodeFrom(schema, slots, k + 1)
  }

  lemma {:induction false} MessageSplits(schema: Schema, slots: seq<Slot>, k: nat)
    requires k <= |slots| == |schema.fields|
    ensures EncodeMessage(schema, slots, |slots|) == EncodeMessage(schema, slots, k) + EncodeFrom(schema, slots, k)
    decreases |slots| - k
  {
    if k < |slots| {
      MessageSplits(schema, slots, k + 1);
      Associates(EncodeMessage(schema, slots, k), EncodeField(schema.fields[k], slots[k]),
                 EncodeFrom(schema, slots, k + 1));
    }
  }

  /** The items from i on. */
  function ItemsFrom(field: Field, values: seq<Value>, i: nat): Bytes
    requires i <= |values|
    decreases |values| - i
  {
    if i == |values| then []
    else EncodeTag(WireType(field.kind), field.tag) + EncodeValue(field.kind,
                                                                  values[i]) + ItemsFrom(field, values, i + 1)
  }

  lemma {:induction false} ItemsSplit(field: Field, values: seq<Value>, i: nat)
    requires i <= |values|
    ensures EncodeItems(field, values) == EncodeItems(field, values[..i]) + ItemsFrom(field, values, i)
    decreases |values| - i
  {
    if i == |values| {
      assert values[..i] == values;
    } else {
      ItemsSplit(field, values, i + 1);
      assert values[..i + 1][..i] == values[..i];
      Associates(EncodeItems(field, values[..i]),
                 EncodeTag(WireType(field.kind), field.tag) + EncodeValue(field.kind, values[i]),
                 ItemsFrom(field, values, i + 1));
    }
  }

  /** While decoding: the fields before k are back, the others still at their defaults. */
  ghost predicate Decoded(schema: Schema, slots: seq<Slot>, k: nat, current: seq<Slot>, seen: set<nat>) {
    && SchemaGood(schema) && MessageInRange(schema, slots) && k <= |slots| == |current|
    && (forall j :: 0 <= j < k ==> SameSlot(schema.fields[j], slots[j], current[j])
                                   && (schema.fields[j].rule.Required? ==> j in seen))
    && forall j :: k <= j < |slots| ==> current[j] == DefaultSlot(schema.fields[j])
  }

  lemma IndexOf(schema: Schema, k: nat)
    requires SchemaGood(schema) && k < |schema.fields|
    ensures FieldIndex(schema, schema.fields[k].tag, 0) == k
  {
    assert forall j :: 0 <= j < |schema.fields| && j != k ==> schema.fields[j].tag != schema.fields[k].tag;
  }

  /** One record of field k. */
  lemma RecordDecodes(schema: Schema, k: nat, wireType: nat, input: Bytes, current: seq<Slot>, seen: set<nat>)
    requires SchemaGood(schema) && k < |schema.fields| == |current| && wireType < 8
    ensures DecodeMessage(schema, EncodeTag(wireType, schema.fields[k].tag) + input, current, seen) ==
            match DecodeField(schema, k, wireType, input, current)
            case None => None
            case Some(p) => DecodeMessage(schema, p.1, p.0, seen + {k})
  {
    TagRoundTrip(wireType, schema.fields[k].tag, input);
    IndexOf(schema, k);
  }

  /** Setting the one member of a union that is set clears nothing. */
  lemma NothingToClear(schema: Schema, slots: seq<Slot>, k: nat, current: seq<Slot>, seen: set<nat>)
    requires Decoded(schema, slots, k, current, seen) && k < |slots| && slots[k].One? && slots[k].has
    ensures ClearUnion(schema, current, schema.fields[k].rule) == current
  {
    var rule := schema.fields[k].rule;
    forall j | 0 <= j < |current| && rule.OneOf? && schema.fields[j].rule == rule && current[j].One?
      ensures !current[j].has {
      if j < k {
        assert SameSlot(schema.fields[j], slots[j], current[j]);
      }
    }
  }

  lemma {:induction false} ValueRoundTrip(kind: Kind, v: Value, rest: Bytes) returns (v': Value)
    requires KindGood(kind) && InRange(kind, v)
    ensures DecodeValue(kind, EncodeValue(kind, v) + rest, DefaultValue(kind)) == Some((v', rest)) && Same(kind, v, v')
    decreases kind, 0, 0
  {
    if kind.SubMessage? {
      var m := kind.message;
      var bytes := EncodeMessage(m, v.slots, |v.slots|);
      SubstreamRoundTrip(bytes, rest);
      MessageSplits(m, v.slots, 0);
      assert [] + EncodeFrom(m, v.slots, 0) == EncodeFrom(m, v.slots, 0);
      var final := FieldsDecode(m, v.slots, 0, Defaults(m), {});
      v' := Message(final);
    } else {
      ScalarRoundTrip(kind, v, rest);
      v' := v;
    }
  }

  /** The items of a repeated field that is not packed, from i on. */
  lemma {:induction false} ItemsDecode(schema: Schema, k: nat, values: seq<Value>, i: nat, rest: Bytes,
                                       current: seq<Slot>, seen: set<nat>)
    returns (final: seq<Value>)
    requires SchemaGood(schema) && k < |schema.fields| == |current| && i <= |values|
    requires schema.fields[k].rule.Repeated? && !Packable(schema.fields[k].kind)
      && SlotInRange(schema.fields[k], Many(values))
    requires current[k].Many? && |current[k].values| == i
      && (forall j :: 0 <= j < i ==> Same(schema.fields[k].kind, values[j], current[k].values[j]))
    requires i == |values| ==> k in seen
    ensures DecodeMessage(schema, ItemsFrom(schema.fields[k], values, i) + rest, current, seen) ==
            DecodeMessage(schema, rest, current[k := Many(final)], seen + {k})
    ensures |final| == |values| && forall j :: 0 <= j < |values| ==> Same(schema.fields[k].kind, values[j], final[j])
    decreases schema.fields[k].kind, 1, |values| - i
  {
    var field := schema.fields[k];
    if i == |values| {
      final := current[k].values;
      assert [] + rest == rest && current[k := Many(final)] == current && seen + {k} == seen;
    } else {
      var tail := ItemsFrom(field, values, i + 1) + rest;
      var tag, item := EncodeTag(WireType(field.kind), field.tag), EncodeValue(field.kind, values[i]);
      Associates(tag + item, ItemsFrom(field, values, i + 1), rest);
      Associates(tag, item, tail);
      var v := ItemDecodes(schema, k, values[i], tail, current, seen, |values|);
      var next := current[k := Many(current[k].values + [v])];
      final := ItemsDecode(schema, k, values, i + 1, rest, next, seen + {k});
      assert next[k := Many(final)] == current[k := Many(final)] && seen + {k} + {k} == seen + {k};
    }
  }

  lemma {:induction false} ItemDecodes(schema: Schema, k: nat, item: Value, tail: Bytes, current: seq<Slot>,
                                       seen: set<nat>, count: nat) returns (v: Value)
    requires SchemaGood(schema) && k < |schema.fields| == |current| && current[k].Many?
    requires schema.fields[k].rule.Repeated? && !Packable(schema.fields[k].kind)
      && |current[k].values| < count <= schema.fields[k].rule.arraySize
    requires InRange(schema.fields[k].kind, item)
    ensures var field := schema.fields[k];
            DecodeMessage(schema, EncodeTag(WireType(field.kind), field.tag) + (EncodeValue(field.kind, item) + tail),
                          current, seen) ==
            DecodeMessage(schema, tail, current[k := Many(current[k].values + [v])], seen + {k})
    ensures Same(schema.fields[k].kind, item, v)
    decreases schema.fields[k].kind, 1, 0
  {
    var kind := schema.fields[k].kind;
    RecordDecodes(schema, k, WireType(kind), EncodeValue(kind, item) + tail, current, seen);
    v := ValueRoundTrip(kind, item, tail);
  }

  /** Field k, of which something was written. */
  lemma {:induction false} FieldDecodes(schema: Schema, slots: seq<Slot>, k: nat, rest: Bytes, current: seq<Slot>,
                                        seen: set<nat>)
    returns (final: Slot)
    requires Decoded(schema, slots, k, current, seen) && k < |slots|
    requires if slots[k].One? then Present(schema.fields[k], slots[k]) else slots[k].values != []
    ensures DecodeMessage(schema, EncodeField(schema.fields[k], slots[k]) + rest, current, seen) ==
            DecodeMessage(schema, rest, current[k := final], seen + {k})
    ensures SameSlot(schema.fields[k], slots[k], final)
    decreases schema.fields[k].kind, 2, 0
  {
    var field, s := schema.fields[k], slots[k];
    assert SlotInRange(field, s) && KindGood(field.kind);
    if s.One? {
      var item := EncodeValue(field.kind, s.value);
      Associates(EncodeTag(WireType(field.kind), field.tag), item, rest);
      RecordDecodes(schema, k, WireType(field.kind), item + rest, current, seen);
      NothingToClear(schema, slots, k, current, seen);
      var v := ValueRoundTrip(field.kind, s.value, rest);
      final := One(true, v);
    } else if Packable(field.kind) {
      var packed := EncodePacked(field.kind, s.values);
      Associates(EncodeTag(WT_STRING, field.tag), PutLengthPrefixedSlice(packed), rest);
      RecordDecodes(schema, k, WT_STRING, PutLengthPrefixedSlice(packed) + rest, current, seen);
      SubstreamRoundTrip(packed, rest);
      PackedRoundTrip(field.kind, s.values, [], field.rule.arraySize);
      assert [] + s.values == s.values;
      final := s;
    } else {
      ItemsSplit(field, s.values, 0);
      assert [] + ItemsFrom(field, s.values, 0) == ItemsFrom(field, s.values, 0) && s.values[..0] == [];
      var values := ItemsDecode(schema, k, s.values, 0, rest, current, seen);
      final := Many(values);
    }
  }

  lemma {:induction false} FieldsDecode(schema: Schema, slots: seq<Slot>, k: nat, current: seq<Slot>, seen: set<nat>)
    returns (final: seq<Slot>)
    requires Decoded(schema, slots, k, current, seen)
    ensures DecodeMessage(schema, EncodeFrom(schema, slots, k), current, seen) == Some(final)
      && SameMessage(schema, slots, final)
    decreases schema, 3, |slots| - k
  {
    if k == |slots| {
      final := current;
    } else {
      var field, s, rest := schema.fields[k], slots[k], EncodeFrom(schema, slots, k + 1);
      if (s.One? && !Present(field, s)) || s == Many([]) {
        AbsentIsDefault(field, s);
        AbsentIsSkipped(field, s, rest);
        final := FieldsDecode(schema, slots, k + 1, current, seen);
      } else {
        var slot := FieldDecodes(schema, slots, k, rest, current, seen);
        final := FieldsDecode(schema, slots, k + 1, current[k := slot], seen + {k});
      }
    }
  }

  /** A message in range, encoded and then decoded into a fresh struct, comes back: equal but for the
      contents of absent fields. */
  lemma MessageRoundTrip(schema: Schema, slots: seq<Slot>) returns (final: seq<Slot>)
    requires SchemaGood(schema) && MessageInRange(schema, slots)
    ensures DecodeMessage(schema, EncodeMessage(schema, slots, |slots|), Defaults(schema), {}) == Some(final)
    ensures SameMessage(schema, slots, final)
  {
    MessageSplits(schema, slots, 0);
    assert [] + EncodeFrom(schema, slots, 0) == EncodeFrom(schema, slots, 0);
    final := FieldsDecode(schema, slots, 0, Defaults(schema), {});
  }
}
