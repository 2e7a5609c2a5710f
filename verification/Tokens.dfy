/** The validated texts that every durable identity is made of. */
module Tokens {
  import opened Framing

  const MAX_TOKEN: nat := 128

  /** ASCII letters and digits, `-`, `_`, `.`, `:` and `/`. */
  predicate IsTokenChar(c: char)
  {
    '0' <= c <= '9' || 'A' <= c <= 'Z' || 'a' <= c <= 'z' || c in {'-', '_', '.', ':', '/'}
  }

  predicate IsToken(t: Text)
  {
    0 < |t| <= MAX_TOKEN && forall i :: 0 <= i < |t| ==> IsTokenChar(t[i])
  }

  /** A SHA-256 in lower-case hexadecimal. */
  predicate IsDigest(t: Text)
  {
    |t| == 64 && forall i :: 0 <= i < |t| ==> '0' <= t[i] <= '9' || 'a' <= t[i] <= 'f'
  }
}
