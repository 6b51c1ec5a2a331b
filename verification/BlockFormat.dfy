// Blocks of a table file: prefix-compressed keys and restart points (table/block_builder.cc,
// table/block.cc).

module BlockFormat {
  import opened DbFormat
  import opened Coding

  datatype KeyValue = KeyValue(key: Bytes, value: Bytes)

  /** A comparator's total order, as the place of each key in it (see Comparator.Rank). */
  type Order = Bytes -> real

  /** shared, non_shared, value length, the rest of the key, the value. */
  function EncodeEntry(shared: nat, e: KeyValue): Bytes
    requires shared <= |e.key|
  {
    PutVarint(shared) + (PutVarint(|e.key| - shared) + (PutVarint(|e.value|) + (e.key[shared..] + e.value)))
  }

  predicate SmallEntry(e: KeyValue) {
    |e.key| < UINT32_LIMIT && |e.value| < UINT32_LIMIT
  }

  /** DecodeEntry: the three lengths, and the bytes after them. One byte each is the fast path. */
  function DecodeEntry(input: Bytes): Option<(nat, nat, nat, Bytes)> {
    if |input| < 3 then None
    else if input[0] < 128 && input[1] < 128 && input[2] < 128 then CheckEntry(input[0], input[1], input[2], input[3..])
    else
      match GetVarint32(input)
      case None => None
      case Some(a) =>
        (match GetVarint32(a.1)
         case None => None
         case Some(b) =>
           (match GetVarint32(b.1)
            case None => None
            case Some(c) => CheckEntry(a.0, b.0, c.0, c.1)))
  }

  function CheckEntry(shared: nat, nonShared: nat, valueLength: nat, rest: Bytes): Option<(nat, nat, nat, Bytes)> {
    if |rest| < nonShared + valueLength then None else Some((shared, nonShared, valueLength, rest))
  }

  lemma FastPathAgrees(a: nat, b: nat, c: nat, rest: Bytes)
    requires a < UINT32_LIMIT && b < UINT32_LIMIT && c < UINT32_LIMIT
    ensures DecodeEntry(PutVarint(a) + (PutVarint(b) + (PutVarint(c) + rest))) == CheckEntry(a, b, c, rest)
  {
    var input := PutVarint(a) + (PutVarint(b) + (PutVarint(c) + rest));
    VarintRoundTrip(a, PutVarint(b) + (PutVarint(c) + rest));
    VarintRoundTrip(b, PutVarint(c) + rest);
    VarintRoundTrip(c, rest);
    FirstByte(a);
    FirstByte(b);
    FirstByte(c);
    if a < 128 && b < 128 && c < 128 {
      assert input == [a, b, c] + rest;
    } else {
      SlowPath(a, b, c, rest, input);
    }
  }

  lemma FirstByte(v: nat)
    ensures |PutVarint(v)| >= 1 && (PutVarint(v)[0] < 128 <==> v < 128) && (v < 128 ==> PutVarint(v) == [v])
  {
  }

  /** One of the first three bytes has its high bit set. */
  lemma SlowPath(a: nat, b: nat, c: nat, rest: Bytes, input: Bytes)
    requires input == PutVarint(a) + (PutVarint(b) + (PutVarint(c) + rest)) && (a >= 128 || b >= 128 || c >= 128)
    ensures |input| >= 3 && (input[0] >= 128 || input[1] >= 128 || input[2] >= 128)
  {
    FirstByte(a);
    FirstByte(b);
    FirstByte(c);
    if a < 128 {
      assert input[1] == PutVarint(b)[0];
      if b < 128 {
        assert input[2] == PutVarint(c)[0];
      }
    }
  }

  lemma EntryRoundTrip(shared: nat, e: KeyValue, rest: Bytes)
    requires SmallEntry(e) && shared <= |e.key|
    ensures DecodeEntry(EncodeEntry(shared, e) + rest)
      == Some((shared, |e.key| - shared, |e.value|, e.key[shared..] + e.value + rest))
    ensures |EncodeEntry(shared, e)| > 0
  {
    var a, b, c, d := PutVarint(shared), PutVarint(|e.key| - shared), PutVarint(|e.value|), e.key[shared..] + e.value;
    assert EncodeEntry(shared, e) + rest == a + (b + (c + (d + rest)));
    FastPathAgrees(shared, |e.key| - shared, |e.value|, d + rest);
  }

  /** The parts of a block: its entries, where each one starts and how much of its key it shares with
      the one before; and which entries start at a restart point. */
  datatype Layout = Layout(entries: seq<KeyValue>, starts: seq<nat>, shared: seq<nat>, firsts: seq<nat>)

  ghost predicate EntriesLaidOut(data: Bytes, end: nat, l: Layout) {
    && |l.starts| == |l.entries| + 1 && |l.shared| == |l.entries| && end <= |data|
    && l.starts[0] == 0 && l.starts[|l.entries|] == end
    && forall i :: 0 <= i < |l.entries| ==> EntryLaidOut(data, end, l, i)
  }

  ghost predicate EntryLaidOut(data: Bytes, end: nat, l: Layout, i: nat)
    requires |l.starts| == |l.entries| + 1 && |l.shared| == |l.entries| && end <= |data| && i < |l.entries|
  {
    var e := l.entries[i];
    && SmallEntry(e) && l.shared[i] <= |e.key| && l.starts[i] < l.starts[i + 1] <= end
    && data[l.starts[i]..l.starts[i + 1]] == EncodeEntry(l.shared[i], e)
    && (i > 0 ==> l.shared[i] <= |l.entries[i - 1].key| && l.entries[i - 1].key[..l.shared[i]] == e.key[..l.shared[i]])
    && (i == 0 ==> l.shared[0] == 0)
  }

  /** Entries at restart points share nothing. */
  ghost predicate RestartsLaidOut(l: Layout) {
    && |l.shared| == |l.entries| && |l.firsts| > 0 && l.firsts[0] == 0
    && (forall r :: 0 < r < |l.firsts| ==> l.firsts[r - 1] < l.firsts[r] < |l.entries|)
    && forall r :: 0 <= r < |l.firsts| && l.firsts[r] < |l.entries| ==> l.shared[l.firsts[r]] == 0
  }

  function FixedAll(numbers: seq<nat>): (r: Bytes)
    ensures |r| == 4 * |numbers|
  {
    if numbers == [] then [] else FixedAll(numbers[..|numbers| - 1]) + PutFixed(numbers[|numbers| - 1], 4)
  }

  lemma {:induction false} FixedAt(numbers: seq<nat>, r: nat)
    requires r < |numbers|
    ensures FixedAll(numbers)[4 * r..4 * r + 4] == PutFixed(numbers[r], 4)
    decreases |numbers|
  {
    var n := |numbers| - 1;
    if r < n {
      FixedAt(numbers[..n], r);
      assert FixedAll(numbers)[4 * r..4 * r + 4] == FixedAll(numbers[..n])[4 * r..4 * r + 4];
    }
  }

  /** A finished block: entries up to end, the restart points, how many they are. */
  ghost predicate IsBlock(contents: Bytes, end: nat, l: Layout) {
    && EntriesLaidOut(contents, end, l) && RestartsLaidOut(l)
    && |contents| == end + 4 * (|l.firsts| + 1) && |contents| < UINT32_LIMIT
    && (forall r :: 0 <= r < |l.firsts| ==> RestartAt(contents, end, l, r))
    && contents[end + 4 * |l.firsts|..] == PutFixed(|l.firsts|, 4)
  }

  ghost predicate RestartAt(contents: Bytes, end: nat, l: Layout, r: nat)
    requires r < |l.firsts| && end + 4 * r + 4 <= |contents|
  {
    l.firsts[r] < |l.starts| && contents[end + 4 * r..end + 4 * r + 4] == PutFixed(l.starts[l.firsts[r]], 4)
  }

  lemma MoreBehind(data: Bytes, end: nat, l: Layout, more: Bytes)
    requires EntriesLaidOut(data, end, l)
    ensures EntriesLaidOut(data + more, end, l)
  {
    forall i | 0 <= i < |l.entries| ensures EntryLaidOut(data + more, end, l, i) {
      assert EntryLaidOut(data, end, l, i);
      assert (data + more)[l.starts[i]..l.starts[i + 1]] == data[l.starts[i]..l.starts[i + 1]];
    }
  }

  function WithEntry(l: Layout, e: KeyValue, shared: nat, end: nat): Layout {
    Layout(l.entries + [e], l.starts + [end], l.shared + [shared], l.firsts)
  }

  /** Where the restart points are does not matter to the entries. */
  lemma WithFirsts(data: Bytes, end: nat, l: Layout, firsts: seq<nat>)
    requires EntriesLaidOut(data, end, l)
    ensures EntriesLaidOut(data, end, l.(firsts := firsts))
  {
    forall i | 0 <= i < |l.entries| ensures EntryLaidOut(data, end, l.(firsts := firsts), i) {
      assert EntryLaidOut(data, end, l, i);
    }
  }

  /** One more entry at the end. */
  lemma EntryAppended(data: Bytes, l: Layout, e: KeyValue, shared: nat)
    requires EntriesLaidOut(data, |data|, l) && SmallEntry(e) && shared <= |e.key|
    requires if l.entries == [] then shared == 0
             else shared <= |l.entries[|l.entries| - 1].key|
                  && l.entries[|l.entries| - 1].key[..shared] == e.key[..shared]
    ensures var data' := data + EncodeEntry(shared, e); EntriesLaidOut(data', |data'|, WithEntry(l, e, shared, |data'|))
  {
    var bytes := EncodeEntry(shared, e);
    var data', n := data + bytes, |l.entries|;
    var l' := WithEntry(l, e, shared, |data'|);
    EntryRoundTrip(shared, e, []);
    MoreBehind(data, |data|, l, bytes);
    forall i | 0 <= i <= n ensures EntryLaidOut(data', |data'|, l', i) {
      if i < n {
        assert EntryLaidOut(data', |data|, l, i);
      } else {
        assert data'[|data|..|data'|] == bytes;
      }
    }
  }
}
