module PbFields {
  import opened DbFormat
  import opened Coding
  import opened PbMessages
  import opened PbDecoding
  import opened PbFieldBits

  /** pb_field_iter_t: it goes round the fields, and knows how many required ones it has passed. */
  class FieldIter {
    const schema: Schema
    var pos: nat
    var requiredFieldIndex: nat

    ghost predicate Valid() reads this {
      && (pos < |schema.fields| || (pos == 0 && schema.fields == []))
      && requiredFieldIndex == RequiredBefore(schema, pos)
    }

    constructor (schema: Schema)
      ensures Valid() && this.schema == schema && pos == 0
    {
      this.schema := schema;
      pos, requiredFieldIndex := 0, 0;
    }

    method Next() returns (more: bool)
      requires Valid()
      modifies this
      ensures Valid() && (more <==> old(pos) + 1 < |schema.fields|)
      ensures pos == if more then old(pos) + 1 else 0
    {
      if schema.fields == [] {
        return false;
      }
      var prev := schema.fields[pos];
      pos := pos + 1;
      if pos == |schema.fields| {
        pos, requiredFieldIndex := 0, 0;
        return false;
      }
      if prev.rule.Required? {
        requiredFieldIndex := requiredFieldIndex + 1;
      }
      more := true;
    }

    /** The tag at the iterator; an empty message type has only the terminator, whose tag is 0. */
    function TagHere(): nat
      reads this
      requires pos < |schema.fields| || schema.fields == []
    {
      if schema.fields == [] then 0 else schema.fields[pos].tag
    }

    /** Once round from wherever it stands. */
    method Find(tag: nat) returns (found: bool)
      requires Valid()
      modifies this
      ensures Valid()
      ensures found ==> TagHere() == tag
      ensures !found ==> pos == old(pos) && (schema.fields == [] ==> tag != 0)
      ensures !found ==> forall k :: 0 <= k < |schema.fields| ==> schema.fields[k].tag != tag
    {
      var start, n := pos, |schema.fields|;
      if TagHere() == tag {
        return true;
      }
      var _ := Next();
      ghost var steps: nat := 1;
      while pos != start
        invariant Valid() && (n == 0 ==> pos == start)
        invariant n > 0 ==> 1 <= steps <= n && pos == (if start + steps < n then start + steps else start + steps - n)
        invariant forall k :: 0 <= k < n && Passed(k, start, steps, n) ==> schema.fields[k].tag != tag
        decreases n - steps
      {
        if TagHere() == tag {
          return true;
        }
        var _ := Next();
        steps := steps + 1;
      }
      assert forall k :: 0 <= k < n ==> Passed(k, start, steps, n);
      found := false;
    }

    /** To the last field; the number of required fields in the message. */
    method CountRequired() returns (count: nat)
      requires Valid()
      modifies this
      ensures Valid() && count == RequiredBefore(schema, |schema.fields|)
    {
      count := requiredFieldIndex;
      var last := if pos < |schema.fields| then Some(schema.fields[pos]) else None;
      var more := Next();
      while more
        invariant Valid()
          && (more ==> 0 < pos && last == Some(schema.fields[pos - 1]) && count == RequiredBefore(schema, pos - 1))
        invariant !more ==> match last
                            case None => schema.fields == [] && count == 0
                            case Some(f) => schema.fields != [] && f == schema.fields[|schema.fields| - 1]
                                            && count == RequiredBefore(schema, |schema.fields| - 1)
        decreases if more then |schema.fields| - pos else 0
      {
        count := requiredFieldIndex;
        last := Some(schema.fields[pos]);
        more := Next();
      }
      if last.Some? && last.value.rule.Required? {
        count := count + 1;
      }
    }
  }

  /** The k-th field is among the steps ones from start on, going round. */
  predicate Passed(k: nat, start: nat, steps: nat, n: nat) {
    start <= k < start + steps || k + n < start + steps
  }

  /** fields_seen as its two words, or more of them. */
  type Seen = seq<seq<bool>>

  ghost predicate IsSeen(seen: Seen) {
    |seen| == MAX_REQUIRED_FIELDS / 32 && forall w :: 0 <= w < |seen| ==> |seen[w]| == 32
  }

  ghost predicate Bit(seen: Seen, i: nat)
    requires IsSeen(seen) && i < MAX_REQUIRED_FIELDS
  {
    seen[i / 32][i % 32]
  }

  /** A bit is set exactly if the required field with that index has been found. */
  ghost predicate Records(schema: Schema, seen: Seen, found: set<nat>) {
    && IsSeen(seen)
    && (forall k :: 0 <= k < |schema.fields| && schema.fields[k].rule.Required?
                    && RequiredBefore(schema, k) < MAX_REQUIRED_FIELDS ==>
          (Bit(seen, RequiredBefore(schema, k)) <==> k in found))
    && forall i :: 0 <= i < MAX_REQUIRED_FIELDS && i >= RequiredBefore(schema, |schema.fields|) ==> !Bit(seen, i)
  }

  lemma {:induction false} RequiredIncreases(schema: Schema, j: nat, k: nat)
    requires j < k <= |schema.fields|
    ensures RequiredBefore(schema, j) <= RequiredBefore(schema, k)
    ensures schema.fields[j].rule.Required? ==> RequiredBefore(schema, j) < RequiredBefore(schema, k)
    decreases k
  {
    if j < k - 1 {
      RequiredIncreases(schema, j, k - 1);
    }
  }

  lemma {:induction false} RequiredField(schema: Schema, i: nat, n: nat) returns (k: nat)
    requires n <= |schema.fields| && i < RequiredBefore(schema, n)
    ensures k < n && schema.fields[k].rule.Required? && RequiredBefore(schema, k) == i
    decreases n
  {
    k := n - 1;
    if i < RequiredBefore(schema, n - 1) {
      k := RequiredField(schema, i, n - 1);
    }
  }

  lemma OneBit(seen: Seen, i: nat)
    requires IsSeen(seen) && i < MAX_REQUIRED_FIELDS
    ensures var seen' := seen[i / 32 := seen[i / 32][i % 32 := true]];
            IsSeen(seen') && forall j :: 0 <= j < MAX_REQUIRED_FIELDS ==> (Bit(seen', j) <==> j == i || Bit(seen, j))
  {
    var seen' := seen[i / 32 := seen[i / 32][i % 32 := true]];
    forall j | 0 <= j < MAX_REQUIRED_FIELDS ensures Bit(seen', j) <==> j == i || Bit(seen, j) {
      assert j / 32 == i / 32 && j % 32 == i % 32 ==> j == i;
    }
  }

  lemma IndexIsOwn(schema: Schema, j: nat, k: nat)
    requires j < |schema.fields| && k < |schema.fields| && schema.fields[j].rule.Required?
      && schema.fields[k].rule.Required?
    ensures RequiredBefore(schema, j) == RequiredBefore(schema, k) <==> j == k
  {
    if j < k {
      RequiredIncreases(schema, j, k);
    } else if k < j {
      RequiredIncreases(schema, k, j);
    }
  }

  lemma MarkSeen(schema: Schema, seen: Seen, found: set<nat>, k: nat, seen': Seen)
    requires Records(schema, seen, found) && k < |schema.fields| && schema.fields[k].rule.Required? && IsSeen(seen')
    requires forall j :: 0 <= j < MAX_REQUIRED_FIELDS ==>
      (Bit(seen', j) <==> j == RequiredBefore(schema, k) || Bit(seen, j))
    ensures Records(schema, seen', found + {k})
  {
    RequiredIncreases(schema, k, |schema.fields|);
    forall j | 0 <= j < |schema.fields| && schema.fields[j].rule.Required?
      && RequiredBefore(schema, j) < MAX_REQUIRED_FIELDS
      ensures Bit(seen', RequiredBefore(schema, j)) <==> j in found + {k}
    {
      IndexIsOwn(schema, j, k);
    }
  }

  ghost predicate AllSet(seen: Seen, count: nat)
    requires IsSeen(seen)
  {
    forall i :: 0 <= i < MAX_REQUIRED_FIELDS && i < count ==> Bit(seen, i)
  }

  /** Whole words first, then the bits that are left. */
  method CheckRequired(count: nat, seen: Seen) returns (ok: bool)
    requires IsSeen(seen) && forall i :: 0 <= i < MAX_REQUIRED_FIELDS && i >= count ==> !Bit(seen, i)
    ensures ok <==> AllSet(seen, count)
  {
    var n := if count > MAX_REQUIRED_FIELDS then MAX_REQUIRED_FIELDS else count;
    var w := 0;
    PowersOf2();
    while w < n / 32
      invariant w <= n / 32 && forall i :: 0 <= i < 32 * w ==> Bit(seen, i)
    {
      WordOfOnes(seen[w], 32);
      if Word(seen[w]) != ALL_BITS {
        var i :| 0 <= i < 32 && !seen[w][i];
        assert !Bit(seen, 32 * w + i);
        return false;
      }
      assert forall i :: 32 * w <= i < 32 * w + 32 ==> Bit(seen, i) == seen[w][i - 32 * w];
      w := w + 1;
    }
    if n % 32 != 0 {
      assert forall i :: 0 <= i < 32 ==> Bit(seen, 32 * w + i) == seen[w][i];
      assert forall j :: n <= j < 32 * w + 32 ==> !Bit(seen, j);
      WordOfOnes(seen[w], n % 32);
      ShiftedOnes(n % 32);
      if Word(seen[w]) != ShiftRight(ALL_BITS, 32 - n % 32) {
        var i :| 0 <= i < n % 32 && !seen[w][i];
        assert !Bit(seen, 32 * w + i);
        return false;
      }
      assert forall i :: 32 * w <= i < n ==> Bit(seen, i) == seen[w][i - 32 * w];
    }
    ok := true;
  }

  ghost predicate TagsDistinct(schema: Schema) {
    forall j, k :: 0 <= j < k < |schema.fields| ==> schema.fields[j].tag != schema.fields[k].tag
  }

  lemma IndexFound(schema: Schema, tag: nat, pos: nat)
    requires TagsDistinct(schema) && pos < |schema.fields| && schema.fields[pos].tag == tag
    ensures FieldIndex(schema, tag, 0) == pos
  {
    assert forall j :: 0 <= j < |schema.fields| && j != pos ==> schema.fields[j].tag != tag;
  }

  /** The check over the words is the check over the fields. */
  lemma BitsTellRequired(schema: Schema, seen: Seen, found: set<nat>)
    requires Records(schema, seen, found)
    ensures AllSet(seen, RequiredBefore(schema, |schema.fields|)) <==> RequiredSeen(schema, found)
  {
    var count := RequiredBefore(schema, |schema.fields|);
    if RequiredSeen(schema, found) {
      forall i | 0 <= i < MAX_REQUIRED_FIELDS && i < count ensures Bit(seen, i) {
        var k := RequiredField(schema, i, |schema.fields|);
      }
    }
    if AllSet(seen, count) {
      AllBitsMean(schema, seen, found, count);
    }
  }

  lemma AllBitsMean(schema: Schema, seen: Seen, found: set<nat>, count: nat)
    requires Records(schema, seen, found) && count == RequiredBefore(schema, |schema.fields|) && AllSet(seen, count)
    ensures RequiredSeen(schema, found)
  {
    forall k | 0 <= k < |schema.fields| && schema.fields[k].rule.Required?
      && RequiredBefore(schema, k) < MAX_REQUIRED_FIELDS
      ensures k in found
    {
      RequiredIncreases(schema, k, |schema.fields|);
      assert Bit(seen, RequiredBefore(schema, k));
    }
  }

  ghost predicate RequiredTagsRead(schema: Schema, tags: seq<nat>) {
    forall k :: 0 <= k < |schema.fields| && schema.fields[k].rule.Required?
                && RequiredBefore(schema, k) < MAX_REQUIRED_FIELDS ==>
      schema.fields[k].tag in tags
  }

  /** Where a value of the field ends, whatever the struct holds. */
  function ValueEnd(field: Field, wireType: nat, input: Bytes): (r: Option<Bytes>)
    ensures r.Some? ==> |r.value| < |input|
  {
    if field.kind.SubMessage? || (field.rule.Repeated? && wireType == WT_STRING && Packable(field.kind)) then
      match Substream(input)
      case None => None
      case Some(p) => Some(p.1)
    else
      match DecodeScalar(field.kind, input)
      case None => None
      case Some(p) => Some(p.1)
  }

  lemma DecodedEnd(schema: Schema, k: nat, wireType: nat, input: Bytes, slots: seq<Slot>)
    requires k < |schema.fields| == |slots| && DecodeField(schema, k, wireType, input, slots).Some?
    ensures ValueEnd(schema.fields[k], wireType, input) == Some(DecodeField(schema, k, wireType, input, slots).value.1)
  {
  }

  /** The bytes a begin with a record of this tag, and b is what comes after it: the record is a value of
      a field with the tag, or, if there is no such field, something that can be skipped. */
  ghost predicate IsRecord(schema: Schema, a: Bytes, tag: nat, b: Bytes) {
    && a != [] && DecodeTag(a).Key? && DecodeTag(a).tag == tag
    && if exists k :: 0 <= k < |schema.fields| && schema.fields[k].tag == tag then
         exists k :: 0 <= k < |schema.fields| && schema.fields[k].tag == tag
           && ValueEnd(schema.fields[k], DecodeTag(a).wireType, DecodeTag(a).rest) == Some(b)
       else
         SkipField(DecodeTag(a).wireType, DecodeTag(a).rest) == Some(b)
  }

  /** The tags are those of the records of the input, one after the other, up to the last of trail. */
  ghost predicate AreTagsOf(schema: Schema, tags: seq<nat>, trail: seq<Bytes>) {
    |trail| == |tags| + 1 && forall i :: 0 <= i < |tags| ==> IsRecord(schema, trail[i], tags[i], trail[i + 1])
  }

  ghost predicate AtEnd(rest: Bytes) {
    rest == [] || DecodeTag(rest) == EndOfMessage
  }

  /** The tags on the wire, as far as its records can be told apart. */
  function WireTags(schema: Schema, input: Bytes): seq<nat>
    decreases |input|
  {
    match if input == [] then EndOfMessage else DecodeTag(input)
    case Key(tag, wireType, rest) =>
      var k := FieldIndex(schema, tag, 0);
      [tag] + (match if k == |schema.fields| then SkipField(wireType, rest)
                                                  else ValueEnd(schema.fields[k], wireType, rest)
               case None => []
               case Some(rest') => WireTags(schema, rest'))
    case _ => []
  }

  /** One more required field may be taken as seen where its tag is on the wire. */
  lemma {:induction false} SuccessNeedsTags(schema: Schema, input: Bytes, slots: seq<Slot>, seen: set<nat>, k: nat)
    requires DecodeMessage(schema, input, slots, seen).Some?
    requires k < |schema.fields| && schema.fields[k].rule.Required? && RequiredBefore(schema, k) < MAX_REQUIRED_FIELDS
    ensures k in seen || schema.fields[k].tag in WireTags(schema, input)
    decreases |input|
  {
    if input != [] && DecodeTag(input).Key? {
      var key := DecodeTag(input);
      var i := FieldIndex(schema, key.tag, 0);
      if i == |schema.fields| {
        SuccessNeedsTags(schema, SkipField(key.wireType, key.rest).value, slots, seen, k);
      } else {
        var p := DecodeField(schema, i, key.wireType, key.rest, slots).value;
        DecodedEnd(schema, i, key.wireType, key.rest, slots);
        SuccessNeedsTags(schema, p.1, p.0, seen + {i}, k);
      }
    }
  }

  /** Success means that the tags of the first 64 required fields are all on the wire. */
  lemma DecodedHasRequired(schema: Schema, input: Bytes, slots: seq<Slot>)
    requires DecodeMessage(schema, input, slots, {}).Some?
    ensures RequiredTagsRead(schema, WireTags(schema, input))
  {
    forall k | 0 <= k < |schema.fields| && schema.fields[k].rule.Required?
      && RequiredBefore(schema, k) < MAX_REQUIRED_FIELDS
      ensures schema.fields[k].tag in WireTags(schema, input)
    {
      SuccessNeedsTags(schema, input, slots, {}, k);
    }
  }

  lemma FirstWireTag(schema: Schema, a: Bytes, tag: nat, b: Bytes)
    requires TagsDistinct(schema) && IsRecord(schema, a, tag, b)
    ensures WireTags(schema, a) == [tag] + WireTags(schema, b)
  {
    var key := DecodeTag(a);
    if FieldIndex(schema, tag, 0) < |schema.fields| {
      var k :| 0 <= k < |schema.fields| && schema.fields[k].tag == tag
        && ValueEnd(schema.fields[k], key.wireType, key.rest) == Some(b);
      IndexFound(schema, tag, k);
    }
  }

  /** With distinct tags there is but one way to read the records. */
  lemma {:induction false} TagsAreWireTags(schema: Schema, tags: seq<nat>, trail: seq<Bytes>)
    requires TagsDistinct(schema) && AreTagsOf(schema, tags, trail) && AtEnd(trail[|tags|])
    ensures WireTags(schema, trail[0]) == tags
    decreases |tags|
  {
    if tags != [] {
      assert IsRecord(schema, trail[0], tags[0], trail[1]);
      FirstWireTag(schema, trail[0], tags[0], trail[1]);
      forall j | 0 <= j < |tags| - 1 ensures IsRecord(schema, trail[1..][j], tags[1..][j], trail[1..][j + 1]) {
        assert IsRecord(schema, trail[j + 1], tags[j + 1], trail[j + 2]);
      }
      TagsAreWireTags(schema, tags[1..], trail[1..]);
      assert tags == [tags[0]] + tags[1..];
    }
  }

  lemma OneMoreTag(schema: Schema, tags: seq<nat>, trail: seq<Bytes>, tag: nat, rest: Bytes)
    requires AreTagsOf(schema, tags, trail) && IsRecord(schema, trail[|tags|], tag, rest)
    ensures AreTagsOf(schema, tags + [tag], trail + [rest])
  {
  }

  /** Notes that the field at the iterator has occurred. */
  method Mark(iter: FieldIter, seen: Seen, ghost found: set<nat>) returns (seen': Seen)
    requires iter.Valid() && iter.pos < |iter.schema.fields| && Records(iter.schema, seen, found)
    ensures Records(iter.schema, seen', found + {iter.pos})
  {
    seen' := seen;
    if iter.schema.fields[iter.pos].rule.Required? && iter.requiredFieldIndex < MAX_REQUIRED_FIELDS {
      var i := iter.requiredFieldIndex;
      seen' := seen[i / 32 := seen[i / 32][i % 32 := true]];
      OneBit(seen, i);
      MarkSeen(iter.schema, seen, found, iter.pos, seen');
    }
  }

  method CheckSeen(iter: FieldIter, seen: Seen, ghost found: set<nat>) returns (ok: bool)
    requires iter.Valid() && Records(iter.schema, seen, found)
    modifies iter
    ensures ok <==> RequiredSeen(iter.schema, found)
  {
    var count := iter.CountRequired();
    ok := CheckRequired(count, seen);
    BitsTellRequired(iter.schema, seen, found);
  }

  function AfterRecord(schema: Schema, r: Option<(seq<Slot>, Bytes)>, seen: set<nat>): Option<seq<Slot>> {
    if r.Some? then DecodeMessage(schema, r.value.1, r.value.0, seen) else None
  }

  /** What the decoder does with a record: its field takes it, or it is skipped. */
  method TakeRecord(iter: FieldIter, seen: Seen, ghost found: set<nat>, input: Bytes, key: Key, slots: seq<Slot>)
    returns (r: Option<(seq<Slot>, Bytes)>, seen': Seen, ghost found': set<nat>)
    requires iter.Valid() && Records(iter.schema, seen, found) && |slots| == |iter.schema.fields|
    requires input != [] && key == DecodeTag(input) && key.Key?
    modifies iter
    ensures iter.Valid() && Records(iter.schema, seen', found')
    ensures r.Some? ==> |r.value.0| == |slots| && |r.value.1| < |input|
                        && IsRecord(iter.schema, input, key.tag, r.value.1)
    ensures forall k :: k in found' ==> k in found || (k < |iter.schema.fields| && iter.schema.fields[k].tag == key.tag)
    ensures TagsDistinct(iter.schema) ==>
      DecodeMessage(iter.schema, input, slots, found) == AfterRecord(iter.schema, r, found')
  {
    seen', found' := seen, found;
    var known := iter.Find(key.tag);
    if known && iter.schema.fields == [] {
      r := None;
    } else if known {
      seen' := Mark(iter, seen, found);
      found' := found + {iter.pos};
      r := DecodeField(iter.schema, iter.pos, key.wireType, key.rest, slots);
      FieldTaken(iter.schema, input, key, slots, found, iter.pos);
    } else {
      var skipped := SkipField(key.wireType, key.rest);
      r := if skipped.Some? then Some((slots, skipped.value)) else None;
    }
  }

  lemma FieldTaken(schema: Schema, input: Bytes, key: Key, slots: seq<Slot>, found: set<nat>, k: nat)
    requires input != [] && key == DecodeTag(input) && key.Key? && k < |schema.fields| == |slots|
      && schema.fields[k].tag == key.tag
    ensures var r := DecodeField(schema, k, key.wireType, key.rest, slots);
      && (r.Some? ==> IsRecord(schema, input, key.tag, r.value.1))
      && (TagsDistinct(schema) ==> DecodeMessage(schema, input, slots, found) == AfterRecord(schema, r, found + {k}))
  {
    if DecodeField(schema, k, key.wireType, key.rest, slots).Some? {
      DecodedEnd(schema, k, key.wireType, key.rest, slots);
    }
    if TagsDistinct(schema) {
      IndexFound(schema, key.tag, k);
    }
  }

  /** pb_decode_noinit. Success means that the tags of the first 64 required fields have all been
      read. tags: those of the records of the input; trail: where each record begins. */
  method DecodeNoInit(schema: Schema, input: Bytes, slots: seq<Slot>)
    returns (r: Option<seq<Slot>>, ghost tags: seq<nat>, ghost trail: seq<Bytes>)
    requires |slots| == |schema.fields|
    ensures r.Some? ==> RequiredTagsRead(schema, tags) && AreTagsOf(schema, tags, trail) && trail[0] == input
                        && AtEnd(trail[|tags|])
    ensures TagsDistinct(schema) ==> r == DecodeMessage(schema, input, slots, {})
    ensures TagsDistinct(schema) && r.Some? ==> tags == WireTags(schema, input)
  {
    tags, trail := [], [input];
    var iter := new FieldIter(schema);
    var seen: Seen := seq(MAX_REQUIRED_FIELDS / 32, _ => seq(32, _ => false));
    var rest, current := input, slots;
    ghost var found: set<nat> := {};
    while rest != []
      invariant iter.Valid() && iter.schema == schema && fresh(iter) && |current| == |schema.fields|
        && Records(schema, seen, found)
      invariant forall k :: k in found ==> k < |schema.fields| && schema.fields[k].tag in tags
      invariant AreTagsOf(schema, tags, trail) && trail[0] == input && trail[|tags|] == rest
      invariant TagsDistinct(schema) ==>
        DecodeMessage(schema, rest, current, found) == DecodeMessage(schema, input, slots, {})
      decreases |rest|
    {
      var key := DecodeTag(rest);
      if key == EndOfMessage {
        break;
      } else if key == BadKey {
        return None, tags, trail;
      }
      var taken;
      taken, seen, found := TakeRecord(iter, seen, found, rest, key, current);
      if taken == None {
        return None, tags, trail;
      }
      OneMoreTag(schema, tags, trail, key.tag, taken.value.1);
      tags, trail := tags + [key.tag], trail + [taken.value.1];
      current, rest := taken.value.0, taken.value.1;
    }
    var ok := CheckSeen(iter, seen, found);
    r := if ok then Some(current) else None;
    if TagsDistinct(schema) {
      TagsAreWireTags(schema, tags, trail);
    }
  }
}
