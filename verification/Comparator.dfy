// The bytewise comparator (util/comparator.cc) and its place among all orders.

module Comparator {
  import opened DbFormat
  import opened Coding

  /** Slice::compare(a, b) < 0: byte by byte, a proper prefix first. */
  predicate Less(a: Bytes, b: Bytes) {
    if b == [] then false
    else if a == [] then true
    else a[0] < b[0] || (a[0] == b[0] && Less(a[1..], b[1..]))
  }

  /** Where a byte string stands on the real line: digits one to 256 after a point in base 257. */
  function Rank(s: Bytes): UserKey {
    if s == [] then 0.0 else (s[0] as real + 1.0 + Rank(s[1..])) / 257.0
  }

  lemma {:induction false} RankRange(s: Bytes)
    ensures 0.0 <= Rank(s) < 1.0
    ensures s != [] ==> Rank(s) > 0.0
  {
    if s != [] {
      RankRange(s[1..]);
    }
  }

  /** The bytewise order is the order of the ranks, so a real number can stand for a user key. */
  lemma {:induction false} RankIsOrderEmbedding(a: Bytes, b: Bytes)
    ensures Less(a, b) <==> Rank(a) < Rank(b)
    ensures Rank(a) == Rank(b) <==> a == b
  {
    RankRange(a);
    RankRange(b);
    if a != [] && b != [] {
      RankRange(a[1..]);
      RankRange(b[1..]);
      RankIsOrderEmbedding(a[1..], b[1..]);
      assert a == [a[0]] + a[1..] && b == [b[0]] + b[1..];
    }
  }

  /** Hence Less is a strict total order. */
  lemma LessIsTotal(a: Bytes, b: Bytes, c: Bytes)
    ensures !Less(a, a) && (Less(a, b) || Less(b, a) || a == b) && !(Less(a, b) && Less(b, a))
    ensures Less(a, b) && Less(b, c) ==> Less(a, c)
  {
    RankIsOrderEmbedding(a, a);
    RankIsOrderEmbedding(a, b);
    RankIsOrderEmbedding(b, a);
    RankIsOrderEmbedding(b, c);
    RankIsOrderEmbedding(a, c);
  }

  lemma {:induction false} LessAfterPrefix(prefix: Bytes, a: Bytes, b: Bytes)
    ensures Less(prefix + a, prefix + b) <==> Less(a, b)
  {
    if prefix == [] {
      assert prefix + a == a && prefix + b == b;
    } else {
      LessAfterPrefix(prefix[1..], a, b);
      assert (prefix + a)[1..] == prefix[1..] + a && (prefix + b)[1..] == prefix[1..] + b;
    }
  }

  /** The two strings agree up to i and differ there. */
  lemma FirstDifference(a: Bytes, b: Bytes, i: nat)
    requires i < |a| && i < |b| && a[..i] == b[..i] && a[i] != b[i]
    ensures Less(a, b) <==> a[i] < b[i]
  {
    LessAfterPrefix(a[..i], a[i..], b[i..]);
    assert a == a[..i] + a[i..] && b == a[..i] + b[i..];
  }

  function CommonPrefix(a: Bytes, b: Bytes): nat {
    if a == [] || b == [] || a[0] != b[0] then 0 else 1 + CommonPrefix(a[1..], b[1..])
  }

  lemma {:induction false} CommonPrefixIs(a: Bytes, b: Bytes, i: nat)
    requires i <= |a| && i <= |b| && a[..i] == b[..i] && (i == |a| || i == |b| || a[i] != b[i])
    ensures CommonPrefix(a, b) == i
  {
    if i > 0 {
      assert a[0] == a[..i][0] == b[..i][0] == b[0];
      assert a[1..][..i - 1] == a[..i][1..] && b[1..][..i - 1] == b[..i][1..];
      CommonPrefixIs(a[1..], b[1..], i - 1);
    }
  }

  /** The byte at which start can be raised without reaching limit, if there is one. */
  predicate CanShorten(start: Bytes, limit: Bytes) {
    var d := CommonPrefix(start, limit);
    d < |start| && d < |limit| && start[d] < 255 && start[d] + 1 < limit[d]
  }

  /** Unless nothing can be gained, a string after start and before limit that ends one byte
      after their common prefix. */
  method FindShortestSeparator(start: Bytes, limit: Bytes) returns (separator: Bytes)
    ensures if CanShorten(start, limit)
      then |separator| == CommonPrefix(start, limit) + 1 && Less(start, separator) && Less(separator, limit)
      else separator == start
  {
    var minLength := if |start| < |limit| then |start| else |limit|;
    var diffIndex := 0;
    while diffIndex < minLength && start[diffIndex] == limit[diffIndex]
      invariant diffIndex <= minLength && start[..diffIndex] == limit[..diffIndex]
    {
      diffIndex := diffIndex + 1;
    }
    CommonPrefixIs(start, limit, diffIndex);
    separator := start;
    if diffIndex < minLength {
      var diffByte := start[diffIndex];
      if diffByte < 255 && diffByte + 1 < limit[diffIndex] {
        separator := start[..diffIndex] + [diffByte + 1];
        assert separator[..diffIndex] == start[..diffIndex];
        FirstDifference(start, separator, diffIndex);
        FirstDifference(separator, limit, diffIndex);
      }
    }
  }

  /** Unless the key is a run of 0xff, a string after it that ends at its first other byte. */
  method FindShortSuccessor(key: Bytes) returns (successor: Bytes)
    ensures if exists i :: 0 <= i < |key| && key[i] != 255
      then 1 <= |successor| <= |key| && Less(key, successor) && forall i :: 0 <= i < |successor| - 1 ==> key[i] == 255
      else successor == key
  {
    for i := 0 to |key|
      invariant forall j :: 0 <= j < i ==> key[j] == 255
    {
      if key[i] != 255 {
        successor := key[..i] + [key[i] + 1];
        assert successor[..i] == key[..i];
        FirstDifference(key, successor, i);
        return;
      }
    }
    successor := key;
  }
}
