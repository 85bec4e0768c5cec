/**
  The content hasher: `MD5OfBytes` and the inline `md5.New() ... hex.EncodeToString(h.Sum(nil))`
  sequences of the file entities.

  The MD5 digest function (RFC 1321) is not modelled; it is a parameter `md5` of every
  operation that hashes, so every property below holds for any deterministic digest function
  and in particular for MD5. The hex step is modelled concretely.
 */
module Digest {
  import opened GoStrings
  import Hex

  /** A digest function: for MD5 it returns 16 bytes (section 3.5 of RFC 1321). */
  type Md5 = seq<byte> -> seq<byte>

  /** `MD5OfBytes`: the lower-case hex form of the digest of `data`. */
  function Md5OfBytes(md5: Md5, data: seq<byte>): (h: GoString)
    ensures |h| == 2 * |md5(data)|
    ensures Dot !in h
    ensures forall i :: 0 <= i < |h| ==> Hex.IsLowerHexDigit(h[i])
  {
    Hex.EncodeHasNoDot(md5(data));
    Hex.Encode(md5(data))
  }

  /** The hex forms of two digests agree exactly when the digests do. */
  lemma Md5OfBytesEqual(md5: Md5, a: seq<byte>, b: seq<byte>)
    ensures Md5OfBytes(md5, a) == Md5OfBytes(md5, b) <==> md5(a) == md5(b)
  {
    Hex.EncodeInjective(md5(a), md5(b));
  }
}
