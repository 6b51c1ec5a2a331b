// Varints and length-prefixed slices (util/coding.cc, util/coding.h).

module Coding {
  import opened DbFormat

  type Byte = b: int | 0 <= b < 256
  type Bytes = seq<Byte>

  const UINT32_LIMIT := 0x1_0000_0000
  const UINT64_LIMIT := 0x1_0000_0000_0000_0000

  /** Seven bits a byte, least significant first; the high bit says that more follow. */
  function PutVarint(v: nat): Bytes {
    if v < 128 then [v] else [v % 128 + 128] + PutVarint(v / 128)
  }

  /** The value of a varint of at most limit bytes at the front of the input, and its length. */
  function ParseVarint(input: Bytes, limit: nat): Option<(nat, nat)> {
    if limit == 0 || input == [] then None
    else if input[0] < 128 then Some((input[0], 1))
    else
      match ParseVarint(input[1..], limit - 1)
      case None => None
      case Some(r) => Some((input[0] - 128 + 128 * r.0, r.1 + 1))
  }

  lemma {:induction false} ParsedLength(input: Bytes, limit: nat)
    ensures ParseVarint(input, limit).Some? ==> 1 <= ParseVarint(input, limit).value.1 <= |input|
  {
    if limit != 0 && input != [] && input[0] >= 128 {
      ParsedLength(input[1..], limit - 1);
    }
  }

  function Wrap(v: nat, width: nat): nat
    requires width > 0
  {
    if v < width then v else v % width
  }

  /** GetVarint32 and GetVarint64: the value wraps at the width of the result. */
  function GetVarint(input: Bytes, limit: nat, width: nat): (r: Option<(nat, Bytes)>)
    requires width > 0
    ensures r.Some? ==> |r.value.1| < |input|
  {
    ParsedLength(input, limit);
    match ParseVarint(input, limit)
    case None => None
    case Some(p) => Some((Wrap(p.0, width), input[p.1..]))
  }

  function GetVarint32(input: Bytes): (r: Option<(nat, Bytes)>)
    ensures r.Some? ==> |r.value.1| < |input|
  {
    GetVarint(input, 5, UINT32_LIMIT)
  }

  function GetVarint64(input: Bytes): (r: Option<(nat, Bytes)>)
    ensures r.Some? ==> |r.value.1| < |input|
  {
    GetVarint(input, 10, UINT64_LIMIT)
  }

  function Power(base: nat, e: nat): nat {
    if e == 0 then 1 else base * Power(base, e - 1)
  }

  lemma {:induction false} VarintParsesBack(v: nat, rest: Bytes, limit: nat)
    requires limit > 0 && v < Power(128, limit)
    ensures ParseVarint(PutVarint(v) + rest, limit) == Some((v, |PutVarint(v)|))
  {
    if v >= 128 {
      assert Power(128, limit) == 128 * Power(128, limit - 1);
      VarintParsesBack(v / 128, rest, limit - 1);
      assert (PutVarint(v) + rest)[1..] == PutVarint(v / 128) + rest;
    }
  }

  lemma WidthRoundTrip(v: nat, rest: Bytes, limit: nat, width: nat)
    requires limit > 0 && v < Power(128, limit) && v < width
    ensures GetVarint(PutVarint(v) + rest, limit, width) == Some((v, rest))
  {
    VarintParsesBack(v, rest, limit);
    assert (PutVarint(v) + rest)[|PutVarint(v)|..] == rest;
  }

  lemma VarintRoundTrip(v: nat, rest: Bytes)
    ensures v < UINT32_LIMIT ==> GetVarint32(PutVarint(v) + rest) == Some((v, rest))
    ensures v < UINT64_LIMIT ==> GetVarint64(PutVarint(v) + rest) == Some((v, rest))
  {
    if v < UINT32_LIMIT {
      assert v < Power(128, 5) by { PowersOf128(); }
      WidthRoundTrip(v, rest, 5, UINT32_LIMIT);
    }
    if v < UINT64_LIMIT {
      assert v < Power(128, 10) by { PowersOf128(); }
      WidthRoundTrip(v, rest, 10, UINT64_LIMIT);
    }
  }

  lemma PowersOf128()
    ensures Power(128, 5) > UINT32_LIMIT && Power(128, 10) > UINT64_LIMIT
  {
    assert Power(128, 1) == 128;
    assert Power(128, 2) == 16384;
    assert Power(128, 3) == 2097152;
    assert Power(128, 4) == 268435456;
    assert Power(128, 5) == 34359738368;
    assert Power(128, 6) == 4398046511104;
    assert Power(128, 7) == 562949953421312;
    assert Power(128, 8) == 72057594037927936;
    assert Power(128, 9) == 9223372036854775808;
  }

  /** EncodeVarint64: the loop peels seven bits at a time. */
  method EncodeVarint64(v: nat) returns (dst: Bytes)
    ensures dst == PutVarint(v)
  {
    dst := [];
    var rest := v;
    while rest >= 128
      invariant dst + PutVarint(rest) == PutVarint(v)
    {
      assert dst + PutVarint(rest) == (dst + [rest % 128 + 128]) + PutVarint(rest / 128);
      dst := dst + [rest % 128 + 128];
      rest := rest / 128;
    }
    dst := dst + [rest];
  }

  /** After shift continuation bytes with the given sum, the rest of the parse is still to be added. */
  ghost predicate Accumulated(p: Bytes, shift: nat, result: nat, unit: nat) {
    && shift <= 10 && shift <= |p|
    && ParseVarint(p, 10) == match ParseVarint(p[shift..], 10 - shift)
      case None => None
      case Some(q) => Some((result + unit * q.0, shift + q.1))
  }

  lemma Distribute(result: nat, unit: nat, low: nat, high: nat)
    ensures result + unit * (low + 128 * high) == (result + low * unit) + (unit * 128) * high
    ensures low * unit >= 0
  {
  }

  lemma AccumulateMore(p: Bytes, shift: nat, result: nat, unit: nat)
    requires shift < 10 && shift < |p| && Accumulated(p, shift, result, unit) && p[shift] >= 128
    ensures (p[shift] - 128) * unit >= 0 && Accumulated(p, shift + 1, result + (p[shift] - 128) * unit, unit * 128)
  {
    var low := p[shift] - 128;
    var rest := ParseVarint(p[shift + 1..], 9 - shift);
    assert p[shift..][1..] == p[shift + 1..];
    Distribute(result, unit, low, 0);
    if rest.Some? {
      Distribute(result, unit, low, rest.value.0);
      assert ParseVarint(p[shift..], 10 - shift) == Some((low + 128 * rest.value.0, rest.value.1 + 1));
    }
  }

  lemma AccumulateLast(p: Bytes, shift: nat, result: nat, unit: nat)
    requires shift < 10 && shift < |p| && Accumulated(p, shift, result, unit) && p[shift] < 128
    ensures p[shift] * unit >= 0 && ParseVarint(p, 10) == Some((result + p[shift] * unit, shift + 1))
  {
    assert ParseVarint(p[shift..], 10 - shift) == Some((p[shift], 1));
    Distribute(result, unit, p[shift], 0);
  }

  /** GetVarint64Ptr: at most ten bytes, or-ed in at increasing shifts and cut to 64 bits. */
  method GetVarint64Ptr(p: Bytes) returns (r: Option<(nat, Bytes)>)
    ensures r == GetVarint64(p)
  {
    var result: nat := 0;
    var shift: nat := 0;
    var unit: nat := 1;
    assert p[0..] == p;
    while shift < 10 && shift < |p|
      invariant Accumulated(p, shift, result, unit)
    {
      if p[shift] >= 128 {
        AccumulateMore(p, shift, result, unit);
        result := result + (p[shift] - 128) * unit;
        unit := unit * 128;
        shift := shift + 1;
      } else {
        AccumulateLast(p, shift, result, unit);
        result := result + p[shift] * unit;
        return Some((Wrap(result, UINT64_LIMIT), p[shift + 1..]));
      }
    }
    r := None;
  }

  function PutLengthPrefixedSlice(s: Bytes): Bytes {
    PutVarint(|s|) + s
  }

  function GetLengthPrefixedSlice(input: Bytes): (r: Option<(Bytes, Bytes)>)
    ensures r.Some? ==> |r.value.1| < |input|
  {
    match GetVarint32(input)
    case None => None
    case Some(p) => if |p.1| >= p.0 then Some((p.1[..p.0], p.1[p.0..])) else None
  }

  lemma SliceRoundTrip(s: Bytes, rest: Bytes)
    requires |s| < UINT32_LIMIT
    ensures GetLengthPrefixedSlice(PutLengthPrefixedSlice(s) + rest) == Some((s, rest))
  {
    VarintRoundTrip(|s|, s + rest);
    assert PutLengthPrefixedSlice(s) + rest == PutVarint(|s|) + (s + rest);
    assert (s + rest)[..|s|] == s && (s + rest)[|s|..] == rest;
  }

  /** PutFixed32 and PutFixed64: little-endian, cut to the given number of bytes. */
  function PutFixed(v: nat, bytes: nat): (r: Bytes)
    ensures |r| == bytes
  {
    if bytes == 0 then [] else [v % 256] + PutFixed(v / 256, bytes - 1)
  }

  function DecodeFixed(input: Bytes): nat {
    if input == [] then 0 else input[0] + 256 * DecodeFixed(input[1..])
  }

  lemma {:induction false} FixedRoundTrip(v: nat, bytes: nat)
    requires v < Power(256, bytes)
    ensures DecodeFixed(PutFixed(v, bytes)) == v
  {
    if bytes > 0 {
      FixedRoundTrip(v / 256, bytes - 1);
    }
  }

  lemma FixedWidths()
    ensures Power(256, 4) == UINT32_LIMIT && Power(256, 8) == UINT64_LIMIT && Power(256, 2) == 65536
  {
    assert Power(256, 1) == 256;
    assert Power(256, 3) == 16777216;
    assert Power(256, 4) == 4294967296;
    assert Power(256, 5) == 1099511627776;
    assert Power(256, 6) == 281474976710656;
    assert Power(256, 7) == 72057594037927936;
  }

  lemma Associates<T>(a: seq<T>, b: seq<T>, c: seq<T>)
    ensures a + b + c == a + (b + c) && (c == [] ==> a + b + c == a + b)
      && (a == [] ==> a + b == b && a + (b + c) == b + c)
  {
  }
}
