// The circular field iterator and the check for required fields (nanopb: pb_common.c, pb_decode.c).

/** The bit array fields_seen: words of 32 bits, and what comparing them with ones means. */
module PbFieldBits {
  import opened Coding

  /** The value of a word, lowest bit first. */
  function Word(bits: seq<bool>): nat {
    if bits == [] then 0 else (if bits[0] then 1 else 0) + 2 * Word(bits[1..])
  }

  const ALL_BITS := 0xFFFF_FFFF

  lemma {:induction false} NoBits(bits: seq<bool>)
    ensures Word(bits) == 0 <==> forall i :: 0 <= i < |bits| ==> !bits[i]
  {
    if bits != [] {
      NoBits(bits[1..]);
      assert forall i :: 0 < i < |bits| ==> bits[i] == bits[1..][i - 1];
    }
  }

  /** A word whose bits from n on are clear has the value of n ones exactly if the others are set. */
  lemma {:induction false} WordOfOnes(bits: seq<bool>, n: nat)
    requires n <= |bits| && forall i :: n <= i < |bits| ==> !bits[i]
    ensures Word(bits) == Power(2, n) - 1 <==> forall i :: 0 <= i < n ==> bits[i]
    decreases n
  {
    if n == 0 {
      NoBits(bits);
    } else {
      WordOfOnes(bits[1..], n - 1);
      assert forall i :: 0 < i < |bits| ==> bits[i] == bits[1..][i - 1];
      assert bits[0] && (forall i :: 0 <= i < n - 1 ==> bits[1..][i]) <==> forall i :: 0 <= i < n ==> bits[i];
    }
  }

  /** a >> n. */
  function ShiftRight(a: nat, n: nat): nat {
    if n == 0 then a else ShiftRight(a, n - 1) / 2
  }

  lemma {:induction false} ShiftedOnes(n: nat)
    requires n <= 32
    ensures ShiftRight(ALL_BITS, 32 - n) == Power(2, n) - 1
    decreases 32 - n
  {
    if n == 32 {
      PowersOf2();
    } else {
      ShiftedOnes(n + 1);
      assert Power(2, n + 1) == 2 * Power(2, n);
    }
  }

  lemma PowersOf2()
    ensures Power(2, 32) == UINT32_LIMIT
  {
    assert Power(2, 8) == 256;
    assert Power(2, 16) == 65536;
    assert Power(2, 24) == 16777216;
  }
}
