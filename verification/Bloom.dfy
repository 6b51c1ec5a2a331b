// Filters: Bloom filters (util/bloom.cc).

/** A Bloom filter never denies a key it was made from. */
module Bloom {
  import opened Coding

  type UInt32 = n: nat | n < 0x1_0000_0000
  type Hash = Bytes -> UInt32

  /** The binary digits of a number, lowest first. */
  function Digits(b: nat, n: nat): (s: seq<bool>)
    ensures |s| == n
  {
    if n == 0 then [] else [b % 2 == 1] + Digits(b / 2, n - 1)
  }

  function FromDigits(s: seq<bool>): (b: nat)
    ensures b < Power(2, |s|)
  {
    if s == [] then 0 else (if s[0] then 1 else 0) + 2 * FromDigits(s[1..])
  }

  lemma {:induction false} DigitsRoundTrip(s: seq<bool>)
    ensures Digits(FromDigits(s), |s|) == s
  {
    if s != [] {
      DigitsRoundTrip(s[1..]);
      assert FromDigits(s) / 2 == FromDigits(s[1..]);
      assert s == [s[0]] + s[1..];
    }
  }

  /** b | (1 << i) */
  function WithBit(b: Byte, i: nat): (r: Byte)
    requires i < 8
  {
    assert Power(2, 8) == 256;
    FromDigits(Digits(b, 8)[i := true])
  }

  predicate BitAt(bits: Bytes, pos: nat)
    requires pos / 8 < |bits|
  {
    Digits(bits[pos / 8], 8)[pos % 8]
  }

  lemma OneMoreBit(bits: Bytes, pos: nat)
    requires pos / 8 < |bits|
    ensures var bits' := bits[pos / 8 := WithBit(bits[pos / 8], pos % 8)];
            forall k :: 0 <= k < 8 * |bits| ==> (BitAt(bits', k) <==> k == pos || BitAt(bits, k))
  {
    var bits' := bits[pos / 8 := WithBit(bits[pos / 8], pos % 8)];
    DigitsRoundTrip(Digits(bits[pos / 8], 8)[pos % 8 := true]);
    forall k | 0 <= k < 8 * |bits| ensures BitAt(bits', k) <==> k == pos || BitAt(bits, k) {
      assert k / 8 == pos / 8 && k % 8 == pos % 8 ==> k == pos;
    }
  }

  /** Rotate right by 17 bits. */
  function Delta(h: UInt32): UInt32 {
    h / 131072 + h % 131072 * 32768
  }

  /** The hash of the j-th probe. */
  function Probe(h: UInt32, j: nat): UInt32 {
    if j == 0 then h else (Probe(h, j - 1) + Delta(h)) % UINT32_LIMIT
  }

  /** The bit of n bytes that the key's j-th probe leads to. */
  function ProbeBit(hash: Hash, key: Bytes, j: nat, n: nat): (pos: nat)
    requires n > 0
    ensures pos / 8 < n
  {
    Probe(hash(key), j) % (8 * n)
  }

  /** All bits that the key's probes lead to are set. */
  predicate Covers(hash: Hash, bits: Bytes, probes: nat, key: Bytes) {
    bits != [] && forall j :: 0 <= j < probes ==> BitAt(bits, ProbeBit(hash, key, j, |bits|))
  }

  /** What a filter, the bit array and the number of probes behind it, has to say of a key; more than 30
      probes are reserved for other encodings. */
  predicate Matches(hash: Hash, filter: Bytes, key: Bytes) {
    |filter| >= 2 && (filter[|filter| - 1] > 30 || Covers(hash, filter[..|filter| - 1], filter[|filter| - 1], key))
  }

  function ProbeCount(bitsPerKey: nat): (k: Byte)
    ensures 1 <= k <= 30
  {
    var k := (bitsPerKey as real * 0.69).Floor;
    if k < 1 then 1 else if k > 30 then 30 else k
  }

  ghost predicate MoreBits(a: Bytes, b: Bytes) {
    |a| == |b| && forall k :: 0 <= k < 8 * |a| && BitAt(a, k) ==> BitAt(b, k)
  }

  lemma StillCovered(hash: Hash, a: Bytes, b: Bytes, probes: nat, key: Bytes)
    requires Covers(hash, a, probes, key) && MoreBits(a, b)
    ensures Covers(hash, b, probes, key)
  {
    forall j | 0 <= j < probes ensures BitAt(b, ProbeBit(hash, key, j, |b|)) {
      assert BitAt(a, ProbeBit(hash, key, j, |a|));
    }
  }

  /** One of the key's probes leads to bit k of n bytes. */
  ghost predicate Probed(hash: Hash, key: Bytes, probes: nat, n: nat, k: nat) {
    n > 0 && exists j :: 0 <= j < probes && ProbeBit(hash, key, j, n) == k
  }

  /** Only bits that some probe of these keys leads to are set. */
  ghost predicate OnlyProbed(hash: Hash, bits: Bytes, probes: nat, keys: seq<Bytes>) {
    forall k :: 0 <= k < 8 * |bits| && BitAt(bits, k) ==> SomeProbed(hash, keys, probes, |bits|, k)
  }

  ghost predicate SomeProbed(hash: Hash, keys: seq<Bytes>, probes: nat, n: nat, k: nat) {
    exists m :: 0 <= m < |keys| && Probed(hash, keys[m], probes, n, k)
  }

  lemma {:induction false} ZeroDigits(n: nat)
    ensures forall i :: 0 <= i < n ==> !Digits(0, n)[i]
  {
    if n > 0 {
      ZeroDigits(n - 1);
    }
  }

  /** The bits set since are ones that the key's probes lead to. */
  ghost predicate AddsOnly(hash: Hash, key: Bytes, probes: nat, bits: Bytes, bits': Bytes) {
    |bits'| == |bits| && forall k :: 0 <= k < 8 * |bits| && BitAt(bits', k) ==>
      BitAt(bits, k) || Probed(hash, key, probes, |bits|, k)
  }

  lemma StillOnlyProbed(hash: Hash, bits: Bytes, bits': Bytes, probes: nat, keys: seq<Bytes>, i: nat)
    requires i < |keys| && OnlyProbed(hash, bits, probes, keys[..i]) && AddsOnly(hash, keys[i], probes, bits, bits')
    ensures OnlyProbed(hash, bits', probes, keys[..i + 1])
  {
    forall k | 0 <= k < 8 * |bits'| && BitAt(bits', k) ensures SomeProbed(hash, keys[..i + 1], probes, |bits|, k) {
      if !Probed(hash, keys[i], probes, |bits|, k) {
        var m :| 0 <= m < i && Probed(hash, keys[..i][m], probes, |bits|, k);
        assert keys[..i + 1][m] == keys[..i][m];
      } else {
        assert keys[..i + 1][i] == keys[i];
      }
    }
  }

  lemma OneMoreProbed(hash: Hash, bits: Bytes, key: Bytes, j: nat, before: Bytes, after: Bytes)
    requires |bits| == |before| == |after| > 0 && AddsOnly(hash, key, j, bits, before)
    requires forall k :: 0 <= k < 8 * |bits| ==>
      (BitAt(after, k) <==> k == ProbeBit(hash, key, j, |bits|) || BitAt(before, k))
    ensures AddsOnly(hash, key, j + 1, bits, after)
  {
    assert Probed(hash, key, j + 1, |bits|, ProbeBit(hash, key, j, |bits|));
  }

  /** Whole bytes, at least eight of them, and all bits clear. */
  method EmptyBits(n: nat, bitsPerKey: nat) returns (bits: Bytes)
    ensures |bits| == (if n * bitsPerKey < 64 then 64 else n * bitsPerKey + 7) / 8
    ensures forall k :: 0 <= k < 8 * |bits| ==> !BitAt(bits, k)
  {
    ZeroDigits(8);
    var count := n * bitsPerKey;
    if count < 64 {
      count := 64;
    }
    var bytes := (count + 7) / 8;
    bits := seq(bytes, _ => 0);
  }

  /** The filter is appended to dst. It matches every one of its keys, and has no bit set beyond theirs. */
  method CreateFilter(hash: Hash, keys: seq<Bytes>, bitsPerKey: nat, dst: Bytes) returns (r: Bytes)
    ensures |r| == |dst| + (if |keys| * bitsPerKey < 64 then 64 else |keys| * bitsPerKey + 7) / 8 + 1
      && dst == r[..|dst|]
    ensures r[|r| - 1] == ProbeCount(bitsPerKey) && OnlyProbed(hash, r[|dst|..|r| - 1], ProbeCount(bitsPerKey), keys)
    ensures forall i :: 0 <= i < |keys| ==> Matches(hash, r[|dst|..], keys[i])
  {
    var bits := EmptyBits(|keys|, bitsPerKey);
    ghost var n := |bits|;
    var probes := ProbeCount(bitsPerKey);
    var i := 0;
    while i < |keys|
      invariant i <= |keys| && |bits| == n > 0 && OnlyProbed(hash, bits, probes, keys[..i])
      invariant forall m :: 0 <= m < i ==> Covers(hash, bits, probes, keys[m])
    {
      var bits' := SetBits(hash, bits, keys[i], probes);
      forall m | 0 <= m <= i ensures Covers(hash, bits', probes, keys[m]) {
        if m < i {
          StillCovered(hash, bits, bits', probes, keys[m]);
        }
      }
      StillOnlyProbed(hash, bits, bits', probes, keys, i);
      bits := bits';
      i := i + 1;
    }
    assert keys[..i] == keys;
    r := dst + (bits + [probes]);
    assert r[|dst|..|r| - 1] == bits;
    assert r[|dst|..] == bits + [probes] && (bits + [probes])[..n] == bits;
  }

  method SetBits(hash: Hash, bits: Bytes, key: Bytes, probes: nat) returns (bits': Bytes)
    requires bits != []
    ensures MoreBits(bits, bits') && Covers(hash, bits', probes, key)
    ensures AddsOnly(hash, key, probes, bits, bits')
  {
    bits' := bits;
    var h := hash(key);
    var delta := Delta(h);
    var j := 0;
    while j < probes
      invariant j <= probes && MoreBits(bits, bits') && h == Probe(hash(key), j)
      invariant Covers(hash, bits', j, key)
      invariant AddsOnly(hash, key, j, bits, bits')
    {
      var pos := h % (8 * |bits'|);
      OneMoreBit(bits', pos);
      StillCovered(hash, bits', bits'[pos / 8 := WithBit(bits'[pos / 8], pos % 8)], j, key);
      OneMoreProbed(hash, bits, key, j, bits', bits'[pos / 8 := WithBit(bits'[pos / 8], pos % 8)]);
      bits' := bits'[pos / 8 := WithBit(bits'[pos / 8], pos % 8)];
      h := (h + delta) % UINT32_LIMIT;
      j := j + 1;
    }
  }

  method KeyMayMatch(hash: Hash, key: Bytes, filter: Bytes) returns (may: bool)
    ensures may <==> Matches(hash, filter, key)
  {
    if |filter| < 2 {
      return false;
    }
    var bits, k := filter[..|filter| - 1], filter[|filter| - 1];
    if k > 30 {
      return true;
    }
    var h := hash(key);
    var delta := Delta(h);
    var j := 0;
    while j < k
      invariant 0 <= j <= k && h == Probe(hash(key), j) && Covers(hash, bits, j, key)
    {
      var pos := h % (8 * |bits|);
      if !BitAt(bits, pos) {
        assert pos == ProbeBit(hash, key, j, |bits|);
        return false;
      }
      h := (h + delta) % UINT32_LIMIT;
      j := j + 1;
    }
    may := true;
  }
}
