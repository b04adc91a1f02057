/**
  Octet strings as strongSwan's chunk_t carries them, and the one pure
  operation the EC public key performs on them itself: dropping the 0x00
  octets a peer may have put in front of a DER-encoded signature.
 */
module Chunk {

  /** One octet. */
  newtype byte = b: int | 0 <= b < 0x100

  /** The contents of a chunk_t. */
  type Bytes = seq<byte>

  /** n octets of value 0x00. */
  function Zeros(n: nat): (z: Bytes)
    ensures |z| == n
    ensures forall i :: 0 <= i < n ==> z[i] == 0
  {
    seq(n, _ => 0)
  }

  /** Every octet of s is 0x00. */
  ghost predicate AllZero(s: Bytes)
  {
    forall i :: 0 <= i < |s| ==> s[i] == 0
  }

  /** s starts with exactly n octets 0x00: the first n are zero and the
      next one, if there is one, is not. */
  ghost predicate ZeroPrefix(s: Bytes, n: nat)
  {
    && n <= |s|
    && (forall i :: 0 <= i < n ==> s[i] == 0)
    && (n < |s| ==> s[n] != 0)
  }

  /** The zero-stripping loop of verify_default_signature: while the chunk
      is non-empty and its first octet is 0x00, drop that octet. The result
      is the suffix of s left after its leading zeros. */
  function StripLeadingZeros(s: Bytes): (r: Bytes)
    ensures |r| <= |s|
    ensures r == s[|s| - |r|..]
    ensures ZeroPrefix(s, |s| - |r|)
  {
    if |s| > 0 && s[0] == 0 then StripLeadingZeros(s[1..]) else s
  }

  /** A string has one number of leading zeros. */
  lemma ZeroPrefixUnique(s: Bytes, n: nat, m: nat)
    requires ZeroPrefix(s, n) && ZeroPrefix(s, m)
    ensures n == m
  {
  }

  /** Stripping removes exactly the leading zeros: for the n with
      ZeroPrefix(s, n), the result is s[n..], which is therefore the longest
      suffix of s that does not start with 0x00. */
  lemma StripRemovesExactlyLeadingZeros(s: Bytes, n: nat)
    requires ZeroPrefix(s, n)
    ensures StripLeadingZeros(s) == s[n..]
    ensures |StripLeadingZeros(s)| == |s| - n
  {
    var r := StripLeadingZeros(s);
    ZeroPrefixUnique(s, n, |s| - |r|);
  }

  /** A string of zeros strips to nothing. */
  lemma StripAllZero(s: Bytes)
    requires AllZero(s)
    ensures StripLeadingZeros(s) == []
  {
    StripRemovesExactlyLeadingZeros(s, |s|);
  }

  /** Stripping twice is stripping once. */
  lemma StripIdempotent(s: Bytes)
    ensures StripLeadingZeros(StripLeadingZeros(s)) == StripLeadingZeros(s)
  {
    var r := StripLeadingZeros(s);
    StripRemovesExactlyLeadingZeros(r, 0);
  }

  /** Prepending any number of 0x00 octets does not change the stripped
      signature. */
  lemma {:induction false} StripZeroPadding(n: nat, s: Bytes)
    ensures StripLeadingZeros(Zeros(n) + s) == StripLeadingZeros(s)
  {
    if n == 0 {
      assert Zeros(0) + s == s;
    } else {
      var padded := Zeros(n) + s;
      assert padded[0] == 0;
      assert padded[1..] == Zeros(n - 1) + s;
      StripZeroPadding(n - 1, s);
    }
  }
}
