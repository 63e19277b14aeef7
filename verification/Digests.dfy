/** The text form of SHA-256 digests. */
module Digests {
  const PREFIX := "sha256:"

  predicate IsHexDigit(c: char) { '0' <= c <= '9' || 'a' <= c <= 'f' }

  predicate IsHex(s: string, length: nat) { |s| == length && forall i :: 0 <= i < |s| ==> IsHexDigit(s[i]) }

  predicate IsDigest(s: string) { |s| == |PREFIX| + 64 && PREFIX <= s && IsHex(s[|PREFIX|..], 64) }
}
