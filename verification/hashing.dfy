/**
 * The content fingerprint: `md5Hash` / `MD5Hash` return the lower-case hex
 * encoding of the 16-byte MD5 digest of a text. The digest itself (RFC 1321)
 * is a parameter of the model; the hex encoding is modelled exactly as
 * Go's `hex.EncodeToString`.
 */
module Hashing {

  /** An octet, Go's `byte`. */
  type byte = x: int | 0 <= x < 256

  /** A 16-byte MD5 digest, Go's `[16]byte`. */
  type Digest = d: seq<byte> | |d| == 16
    witness [0, 0, 0, 0, 0, 0, 0, 0, 0, 0, 0, 0, 0, 0, 0, 0]

  predicate IsLowerHexDigit(c: char) {
    '0' <= c <= '9' || 'a' <= c <= 'f'
  }

  predicate IsLowerHex(s: string) {
    forall i :: 0 <= i < |s| ==> IsLowerHexDigit(s[i])
  }

  /** The value of one lower-case hex digit. */
  function HexValue(c: char): (n: int)
    requires IsLowerHexDigit(c)
    ensures 0 <= n < 16
  {
    if '0' <= c <= '9' then c as int - '0' as int else c as int - 'a' as int + 10
  }

  /** The lower-case hex digit of a nibble; `HexValue` inverts it. */
  function HexDigit(n: int): (c: char)
    requires 0 <= n < 16
    ensures IsLowerHexDigit(c)
    ensures HexValue(c) == n
  {
    if n < 10 then ('0' as int + n) as char else ('a' as int + n - 10) as char
  }

  /** Go's `hex.EncodeToString`: two lower-case digits per byte, high nibble first. */
  function HexEncode(bytes: seq<byte>): (s: string)
    ensures |s| == 2 * |bytes|
    ensures IsLowerHex(s)
  {
    if |bytes| == 0 then ""
    else [HexDigit(bytes[0] / 16), HexDigit(bytes[0] % 16)] + HexEncode(bytes[1..])
  }

  /** The inverse of `HexEncode` on well-formed input. */
  function HexDecode(s: string): (bytes: seq<byte>)
    requires |s| % 2 == 0 && IsLowerHex(s)
    ensures |bytes| == |s| / 2
  {
    if |s| == 0 then []
    else [HexValue(s[0]) * 16 + HexValue(s[1])] + HexDecode(s[2..])
  }

  /** Decoding the encoding of any byte string gives the byte string back. */
  lemma {:induction false} HexRoundTrip(bytes: seq<byte>)
    ensures HexDecode(HexEncode(bytes)) == bytes
  {
    if |bytes| > 0 {
      var s := HexEncode(bytes);
      assert s[2..] == HexEncode(bytes[1..]);
      HexRoundTrip(bytes[1..]);
    }
  }

  /** Distinct digests never share a hex encoding. */
  lemma HexEncodeInjective(a: seq<byte>, b: seq<byte>)
    requires HexEncode(a) == HexEncode(b)
    ensures a == b
  {
    HexRoundTrip(a);
    HexRoundTrip(b);
  }

  /**
   * `MD5Hash(text)`: the hex encoding of the digest `md5(text)`. Being a
   * function it is deterministic; the result is always 32 lower-case hex
   * characters and decodes back to the digest.
   */
  function MD5Hash(md5: string -> Digest, text: string): (h: string)
    ensures |h| == 32 && IsLowerHex(h)
    ensures HexDecode(h) == md5(text)
  {
    HexRoundTrip(md5(text));
    HexEncode(md5(text))
  }

  /** Two texts get the same fingerprint exactly when their digests agree. */
  lemma MD5HashCollidesOnlyWithDigest(md5: string -> Digest, t1: string, t2: string)
    ensures MD5Hash(md5, t1) == MD5Hash(md5, t2) <==> md5(t1) == md5(t2)
  {
    if MD5Hash(md5, t1) == MD5Hash(md5, t2) {
      HexEncodeInjective(md5(t1), md5(t2));
    }
  }
}
