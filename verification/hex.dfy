/** `encoding/hex`: lower-case hexadecimal encoding of bytes, and its inverse. */
module Hex {
  import opened Wrappers
  import opened GoStrings

  /** The character for a nibble, from the table "0123456789abcdef". */
  function Digit(n: int): (d: byte)
    requires 0 <= n < 16
    ensures IsLowerHexDigit(d)
  {
    if n < 10 then 48 + n else 87 + n
  }

  predicate IsLowerHexDigit(b: byte) {
    48 <= b <= 57 || 97 <= b <= 102
  }

  /** The nibble a lower-case hex digit stands for. */
  function DigitValue(b: byte): (n: int)
    requires IsLowerHexDigit(b)
    ensures 0 <= n < 16 && Digit(n) == b
  {
    if b <= 57 then b - 48 else b - 87
  }

  /** `hex.EncodeToString`: two lower-case digits per byte, high nibble first. */
  function Encode(src: seq<byte>): (r: GoString)
    ensures |r| == 2 * |src|
    ensures forall i :: 0 <= i < |r| ==> IsLowerHexDigit(r[i])
    decreases |src|
  {
    if |src| == 0 then []
    else [Digit(src[0] / 16), Digit(src[0] % 16)] + Encode(src[1..])
  }

  /** The inverse of `Encode`: defined exactly on even-length strings of lower-case digits. */
  function Decode(s: GoString): (r: Option<seq<byte>>)
    ensures r.Some? ==> 2 * |r.value| == |s|
    decreases |s|
  {
    if |s| == 0 then Some([])
    else if |s| == 1 || !IsLowerHexDigit(s[0]) || !IsLowerHexDigit(s[1]) then None
    else
      var rest :- Decode(s[2..]);
      Some([DigitValue(s[0]) * 16 + DigitValue(s[1])] + rest)
  }

  lemma {:induction false} DecodeEncode(src: seq<byte>)
    ensures Decode(Encode(src)) == Some(src)
    decreases |src|
  {
    if |src| > 0 {
      var e := Encode(src);
      assert e[2..] == Encode(src[1..]);
      DecodeEncode(src[1..]);
      assert DigitValue(e[0]) == src[0] / 16 && DigitValue(e[1]) == src[0] % 16;
      assert src == [src[0]] + src[1..];
    }
  }

  /** Two digests are equal exactly when their hex forms are. */
  lemma EncodeInjective(a: seq<byte>, b: seq<byte>)
    ensures Encode(a) == Encode(b) <==> a == b
  {
    DecodeEncode(a);
    DecodeEncode(b);
  }

  /** No hex string contains the token separator. */
  lemma EncodeHasNoDot(src: seq<byte>)
    ensures Dot !in Encode(src)
  {
  }
}
